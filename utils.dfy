/** `src/lib/utils.ts`: the video-keyword test applied to prompts and the
    relative "time ago" label shown beside chat messages. */
module Utils {
  import opened Text

  /** The thirteen words whose presence marks a prompt as a video request. */
  const VideoKeywords: seq<string> := [
    "video", "animation", "movie", "film", "animate", "motion", "moving",
    "sequence", "clip", "footage", "cinematic", "dynamic", "flowing"
  ]

  /** `isVideoRequest(prompt)`: some keyword occurs in the lower-cased prompt. */
  function IsVideoRequest(prompt: string): (r: bool)
    ensures r <==> exists i :: 0 <= i < |VideoKeywords| && Contains(Lower(prompt), VideoKeywords[i])
  {
    ContainsAny(Lower(prompt), VideoKeywords)
  }

  /** Upper and lower case are the same to the test. */
  lemma IsVideoRequestIgnoresCase(prompt: string)
    ensures IsVideoRequest(prompt) == IsVideoRequest(Lower(prompt))
  {
    LowerIdempotent(prompt);
  }

  /** Surrounding a video request with more text keeps it one. */
  lemma IsVideoRequestInfix(a: string, prompt: string, b: string)
    requires IsVideoRequest(prompt)
    ensures IsVideoRequest(a + prompt + b)
  {
    var i :| 0 <= i < |VideoKeywords| && Contains(Lower(prompt), VideoKeywords[i]);
    LowerAppend(a + prompt, b);
    LowerAppend(a, prompt);
    ContainsInfix(Lower(a), Lower(prompt), Lower(b), VideoKeywords[i]);
  }

  /** An upper-case keyword anywhere in a sentence is found, as in
      "A VIDEO of a cat". */
  lemma ShoutedVideoIsVideoRequest(a: string, b: string)
    ensures IsVideoRequest(a + "VIDEO" + b)
  {
    var w := "video";
    assert Lower("VIDEO") == w;
    assert VideoKeywords[0] == w;
    ContainsFromOccurrence(w, w, 0);
    assert IsVideoRequest("VIDEO");
    IsVideoRequestInfix(a, "VIDEO", b);
  }

  // ---------------------------------------------------------------------
  // formatTimestamp
  // ---------------------------------------------------------------------

  /** `Math.floor(elapsedMs / 1000)`: whole seconds, rounded down also for a
      negative difference (a date in the future). */
  function ElapsedSeconds(elapsedMs: int): (secs: int)
    ensures secs * 1000 <= elapsedMs < secs * 1000 + 1000
  {
    elapsedMs / 1000
  }

  const JustNow := "Just now"
  const MinutesSuffix := "m ago"
  const HoursSuffix := "h ago"

  /** `formatTimestamp(date)` where `elapsedMs` is `now - date` in
      milliseconds and `localeDate` stands for `date.toLocaleDateString()`. */
  function FormatTimestamp(elapsedMs: int, localeDate: string): (r: string)
    ensures ElapsedSeconds(elapsedMs) < 60 ==> r == JustNow
    ensures 60 <= ElapsedSeconds(elapsedMs) < 3600 ==>
      exists m: nat :: 1 <= m < 60 && m * 60 <= ElapsedSeconds(elapsedMs) < m * 60 + 60 &&
                       r == Decimal(m) + MinutesSuffix
    ensures 3600 <= ElapsedSeconds(elapsedMs) < 86400 ==>
      exists h: nat :: 1 <= h < 24 && h * 3600 <= ElapsedSeconds(elapsedMs) < h * 3600 + 3600 &&
                       r == Decimal(h) + HoursSuffix
    ensures 86400 <= ElapsedSeconds(elapsedMs) ==> r == localeDate
  {
    var diffInSeconds := ElapsedSeconds(elapsedMs);
    if diffInSeconds < 60 then JustNow
    else if diffInSeconds < 3600 then Decimal(diffInSeconds / 60) + MinutesSuffix
    else if diffInSeconds < 86400 then Decimal(diffInSeconds / 3600) + HoursSuffix
    else localeDate
  }

  /** Two times within the hour that lie in different minutes get different
      labels, so the label tells the minute apart. */
  lemma MinuteLabelsDistinct(ms1: int, ms2: int, localeDate: string)
    requires 60 <= ElapsedSeconds(ms1) < 3600 && 60 <= ElapsedSeconds(ms2) < 3600
    requires ElapsedSeconds(ms1) / 60 != ElapsedSeconds(ms2) / 60
    ensures FormatTimestamp(ms1, localeDate) != FormatTimestamp(ms2, localeDate)
  {
    FramedDecimalsDiffer("", ElapsedSeconds(ms1) / 60, ElapsedSeconds(ms2) / 60, MinutesSuffix);
    assert "" + Decimal(ElapsedSeconds(ms1) / 60) == Decimal(ElapsedSeconds(ms1) / 60);
    assert "" + Decimal(ElapsedSeconds(ms2) / 60) == Decimal(ElapsedSeconds(ms2) / 60);
  }

  /** A minute label is never "Just now" nor an hour label: the three
      relative forms cannot be confused. */
  lemma RelativeLabelsDisjoint(msMinute: int, msHour: int, msNow: int, localeDate: string)
    requires ElapsedSeconds(msNow) < 60
    requires 60 <= ElapsedSeconds(msMinute) < 3600
    requires 3600 <= ElapsedSeconds(msHour) < 86400
    ensures FormatTimestamp(msMinute, localeDate) != FormatTimestamp(msNow, localeDate)
    ensures FormatTimestamp(msMinute, localeDate) != FormatTimestamp(msHour, localeDate)
    ensures FormatTimestamp(msHour, localeDate) != FormatTimestamp(msNow, localeDate)
  {
    var m := Decimal(ElapsedSeconds(msMinute) / 60);
    var h := Decimal(ElapsedSeconds(msHour) / 3600);
    // The numerals are digits, while "Just now" starts with a letter.
    assert (m + MinutesSuffix)[0] == m[0];
    assert (h + HoursSuffix)[0] == h[0];
    // The two suffixes differ in the letter before " ago".
    var ml := m + MinutesSuffix;
    var hl := h + HoursSuffix;
    assert ml[|ml| - 5] == 'm';
    assert hl[|hl| - 5] == 'h';
  }
}
