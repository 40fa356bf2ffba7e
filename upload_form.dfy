/** The pure helpers of the upload page: reading start/end times, the
    start < end check, the process payload, the upload percentage, the
    Start button's enable rule and the clip file-id convention. */
module UploadForm {
  import opened Basics

  // ---------------------------------------------------------------------
  // JavaScript numbers, as far as the time fields can produce them

  /** A JavaScript number: NaN or a finite value (kept exact). */
  datatype Num = NaN | Fin(v: real)

  function Add(a: Num, b: Num): Num {
    if a.Fin? && b.Fin? then Fin(a.v + b.v) else NaN
  }

  function Scale(a: Num, k: real): Num {
    if a.Fin? then Fin(a.v * k) else NaN
  }

  /** `a >= b`, which is false as soon as either side is NaN. */
  predicate AtLeast(a: Num, b: Num) {
    a.Fin? && b.Fin? && a.v >= b.v
  }

  function Pow10(n: nat): (p: nat)
    ensures p >= 1
  {
    if n == 0 then 1 else 10 * Pow10(n - 1)
  }

  /** The value of the digits after a decimal point. */
  function Fraction(s: string): (f: real)
    requires AllDigits(s)
    ensures 0.0 <= f
  {
    QuotientNonNegative(DigitsValue(s) as real, Pow10(|s|) as real);
    DigitsValue(s) as real / Pow10(|s|) as real
  }

  lemma QuotientNonNegative(x: real, y: real)
    requires 0.0 <= x && 0.0 < y
    ensures 0.0 <= x / y
  {
  }

  /** The length of the run of digits at the head of `s`. */
  function LeadingDigits(s: string): (n: nat)
    ensures n <= |s| && AllDigits(s[..n])
    ensures n < |s| ==> !IsDigit(s[n])
    decreases |s|
  {
    if s == [] || !IsDigit(s[0]) then 0 else 1 + LeadingDigits(s[1..])
  }

  /** The unsigned decimal literal `digits[.digits]` (at least one digit) at
      the head of `s`: its length and its value, or None when there is none. */
  function ScanDecimal(s: string): Option<(nat, real)> {
    var a := LeadingDigits(s);
    if a < |s| && s[a] == '.' then
      var b := LeadingDigits(s[a + 1..]);
      assert s[a + 1..][..b] == s[a + 1..a + 1 + b];
      if a == 0 && b == 0 then None
      else Some((a + 1 + b, DigitsValue(s[..a]) as real + Fraction(s[a + 1..a + 1 + b])))
    else if a == 0 then None
    else Some((a, DigitsValue(s[..a]) as real))
  }

  /** `parseFloat(s)`: the literal at the head of `s`, ignoring what follows.
      It is a number exactly when `s` starts with a digit, or with a point
      and a digit, and that number is never negative. */
  function ParseFloat(s: string): (r: Num)
    ensures r.Fin? <==> s != [] && (IsDigit(s[0]) || (s[0] == '.' && |s| >= 2 && IsDigit(s[1])))
    ensures r.Fin? ==> r.v >= 0.0
  {
    match ScanDecimal(s)
    case None => NaN
    case Some((_, v)) => Fin(v)
  }

  /** `Number(s)`: 0 for the empty string, the value when all of `s` is one
      literal, NaN otherwise. A non-empty string that `Number` reads is read
      the same by `parseFloat`. */
  function ToNumber(s: string): (r: Num)
    ensures s == [] ==> r == Fin(0.0)
    ensures s != [] && r.Fin? ==> r == ParseFloat(s)
    ensures s != [] && !IsDigit(s[0]) && s[0] != '.' ==> r == NaN
  {
    if s == [] then Fin(0.0)
    else match ScanDecimal(s)
      case Some((n, v)) => if n == |s| then Fin(v) else NaN
      case None => NaN
  }

  /** The run of leading digits of `d + rest` is exactly `d` when `rest`
      does not start with a digit. */
  lemma {:induction false} LeadingDigitsOf(d: string, rest: string)
    requires AllDigits(d)
    requires rest == [] || !IsDigit(rest[0])
    ensures LeadingDigits(d + rest) == |d|
    decreases |d|
  {
    if d != [] {
      assert (d + rest)[1..] == d[1..] + rest;
      LeadingDigitsOf(d[1..], rest);
    }
  }

  /** `parseFloat` reads a run of digits as its value when what follows
      cannot continue the literal (no digit, point or exponent), and
      `Number` reads a string of digits as its value. */
  lemma DigitsRead(d: string, rest: string)
    requires d != [] && AllDigits(d)
    requires rest == [] || (!IsDigit(rest[0]) && rest[0] != '.' && rest[0] != 'e' && rest[0] != 'E')
    ensures ParseFloat(d + rest) == Fin(DigitsValue(d) as real)
    ensures rest == [] ==> ToNumber(d) == Fin(DigitsValue(d) as real)
  {
    var s := d + rest;
    LeadingDigitsOf(d, rest);
    assert s[..|d|] == d;
    assert |d| < |s| ==> s[|d|] == rest[0];
    assert ScanDecimal(s) == Some((|d|, DigitsValue(d) as real));
    if rest == [] {
      assert s == d;
    }
  }

  // ---------------------------------------------------------------------
  // Time fields

  /** `parseTimeToSeconds`: nothing for an empty field; `H:M:S` and `M:S`
      read each part with `Number`; anything else falls back to `parseFloat`. */
  function ParseTimeToSeconds(s: string): (r: Option<Num>)
    ensures r == None <==> s == ""
  {
    if s == "" then None
    else if ':' in s && |Split(s, ':')| == 3 then
      var p := Split(s, ':');
      Some(Add(Add(Scale(ToNumber(p[0]), 3600.0), Scale(ToNumber(p[1]), 60.0)), ToNumber(p[2])))
    else if ':' in s && |Split(s, ':')| == 2 then
      var p := Split(s, ':');
      Some(Add(Scale(ToNumber(p[0]), 60.0), ToNumber(p[1])))
    else Some(ParseFloat(s))
  }

  lemma ParseHoursMinutesSeconds(h: string, m: string, sec: string)
    requires ':' !in h && ':' !in m && ':' !in sec
    ensures ParseTimeToSeconds(h + ":" + m + ":" + sec)
         == Some(Add(Add(Scale(ToNumber(h), 3600.0), Scale(ToNumber(m), 60.0)), ToNumber(sec)))
  {
    var s := h + ":" + m + ":" + sec;
    assert [h, m, sec][1..] == [m, sec] && [m, sec][1..] == [sec];
    assert Join([m, sec], ':') == m + [':'] + sec;
    assert Join([h, m, sec], ':') == h + [':'] + Join([m, sec], ':');
    assert Join([h, m, sec], ':') == s;
    SplitOfJoin([h, m, sec], ':');
    assert s[|h|] == ':';
  }

  lemma ParseMinutesSeconds(m: string, sec: string)
    requires ':' !in m && ':' !in sec
    ensures ParseTimeToSeconds(m + ":" + sec) == Some(Add(Scale(ToNumber(m), 60.0), ToNumber(sec)))
  {
    var s := m + ":" + sec;
    assert [m, sec][1..] == [sec];
    assert Join([m, sec], ':') == s;
    SplitOfJoin([m, sec], ':');
    assert s[|m|] == ':';
  }

  /** With no colon, or with three or more colons, the field is read by
      `parseFloat` alone. */
  lemma ParseOtherwise(s: string)
    requires s != ""
    requires ':' !in s || |Split(s, ':')| > 3
    ensures ParseTimeToSeconds(s) == Some(ParseFloat(s))
  {
  }

  lemma DigitsHaveNoColon(d: string)
    requires AllDigits(d)
    ensures ':' !in d
  {
  }

  /** `Number` of a run of digits is its value. */
  lemma NumberOfDigits(d: string)
    requires d != [] && AllDigits(d)
    ensures ToNumber(d) == Fin(DigitsValue(d) as real)
  {
    DigitsRead(d, []);
    assert d + [] == d;
  }

  lemma ClockDigitsValue(h: string, m: string, sec: string)
    requires h != [] && m != [] && sec != []
    requires AllDigits(h) && AllDigits(m) && AllDigits(sec)
    ensures Add(Add(Scale(ToNumber(h), 3600.0), Scale(ToNumber(m), 60.0)), ToNumber(sec))
         == Fin((DigitsValue(h) * 3600 + DigitsValue(m) * 60 + DigitsValue(sec)) as real)
  {
    var a, b, c := DigitsValue(h), DigitsValue(m), DigitsValue(sec);
    NumberOfDigits(h);
    NumberOfDigits(m);
    NumberOfDigits(sec);
    assert (a * 3600 + b * 60 + c) as real == a as real * 3600.0 + b as real * 60.0 + c as real;
  }

  /** `H:M:S` in digits is `H*3600 + M*60 + S` seconds. */
  lemma ParseClockDigits(h: string, m: string, sec: string)
    requires h != [] && m != [] && sec != []
    requires AllDigits(h) && AllDigits(m) && AllDigits(sec)
    ensures ParseTimeToSeconds(h + ":" + m + ":" + sec)
         == Some(Fin((DigitsValue(h) * 3600 + DigitsValue(m) * 60 + DigitsValue(sec)) as real))
  {
    DigitsHaveNoColon(h);
    DigitsHaveNoColon(m);
    DigitsHaveNoColon(sec);
    ParseHoursMinutesSeconds(h, m, sec);
    ClockDigitsValue(h, m, sec);
  }

  /** `runValidation`: a submission is refused exactly when both times
      read as finite numbers and the start is not before the end. */
  function RunValidation(startTime: string, endTime: string): (ok: bool)
    ensures !ok <==>
      ParseTimeToSeconds(startTime).Some? && ParseTimeToSeconds(startTime).value.Fin? &&
      ParseTimeToSeconds(endTime).Some? && ParseTimeToSeconds(endTime).value.Fin? &&
      ParseTimeToSeconds(startTime).value.v >= ParseTimeToSeconds(endTime).value.v
  {
    if startTime != "" && endTime != "" then
      var start := ParseTimeToSeconds(startTime);
      var end := ParseTimeToSeconds(endTime);
      !(start.Some? && end.Some? && AtLeast(start.value, end.value))
    else true
  }

  /** A missing or unreadable time never blocks a submission. */
  lemma NaNNeverBlocks(startTime: string, endTime: string)
    requires startTime == "" || endTime == ""
          || ParseTimeToSeconds(startTime) == Some(NaN) || ParseTimeToSeconds(endTime) == Some(NaN)
    ensures RunValidation(startTime, endTime)
  {
  }

  function ClockSeconds(h: string, m: string, sec: string): nat
    requires AllDigits(h) && AllDigits(m) && AllDigits(sec)
  {
    DigitsValue(h) * 3600 + DigitsValue(m) * 60 + DigitsValue(sec)
  }

  /** For two `H:M:S` times written in digits, the submission is refused iff
      the start is not before the end. */
  lemma ClockRangeRefused(h1: string, m1: string, s1: string, h2: string, m2: string, s2: string)
    requires h1 != [] && m1 != [] && s1 != [] && h2 != [] && m2 != [] && s2 != []
    requires AllDigits(h1) && AllDigits(m1) && AllDigits(s1)
    requires AllDigits(h2) && AllDigits(m2) && AllDigits(s2)
    ensures !RunValidation(h1 + ":" + m1 + ":" + s1, h2 + ":" + m2 + ":" + s2)
        <==> ClockSeconds(h1, m1, s1) >= ClockSeconds(h2, m2, s2)
  {
    ParseClockDigits(h1, m1, s1);
    ParseClockDigits(h2, m2, s2);
  }

  // ---------------------------------------------------------------------
  // The process payload

  datatype UploadMode = FileMode | UrlMode

  /** What the page's input controls hold when Start is pressed. */
  datatype Form = Form(
    mode: UploadMode, videoUrl: string,
    numShorts: int, captionStyle: string, language: string, clipDuration: int,
    startTime: string, endTime: string,
    customColor: string, customBgColor: string, customSize: int)

  /** The controls' initial values. */
  const InitialForm := Form(FileMode, "", 4, "Karaoke", "", 60, "", "", "#FFFFFF", "", 18)

  const DefaultColor := "#FFFFFF"
  const DefaultSize := 18

  /** A key of the JSON body: left out, or sent with a value. */
  datatype Field<T> = Omitted | Sent(value: T)

  /** The body of `POST /api/process`. `fileId` and `videoPath` carry the
      upload's answer, which may be `null`. */
  datatype Payload = Payload(
    fileId: Field<Option<string>>, videoPath: Field<Option<string>>, videoUrl: Field<string>,
    numShorts: int, captionStyle: string, language: string, clipDuration: int,
    startTime: Field<Num>, endTime: Field<Num>,
    customColor: Field<string>, customBgColor: Field<string>, customSize: Field<int>)

  /** A time key of the payload: left out exactly for an empty field, and
      otherwise the field's reading; a field of plain digits is sent as
      that many seconds. */
  function TimeField(s: string): (f: Field<Num>)
    ensures f == Omitted <==> s == ""
    ensures f.Sent? ==> ParseTimeToSeconds(s) == Some(f.value)
    ensures s != "" && AllDigits(s) ==> f == Sent(Fin(DigitsValue(s) as real))
  {
    if s != "" && AllDigits(s) then
      DigitsHaveNoColon(s);
      ParseOtherwise(s);
      DigitsRead(s, []);
      assert s + [] == s;
      Sent(ParseFloat(s))
    else
      match ParseTimeToSeconds(s)
      case None => Omitted
      case Some(n) => Sent(n)
  }

  /** The payload built by `handleProcess`: settings equal to their defaults
      are left out, and the video is named by the upload's answer in file
      mode or by the URL in url mode, never both. */
  function BuildPayload(form: Form, fileId: Option<string>, savedPath: Option<string>): (p: Payload)
    ensures p.customColor == Omitted <==> form.customColor == DefaultColor
    ensures p.customSize == Omitted <==> form.customSize == DefaultSize
    ensures p.customBgColor == Omitted <==> form.customBgColor == ""
    ensures p.startTime == Omitted <==> form.startTime == ""
    ensures p.endTime == Omitted <==> form.endTime == ""
    ensures form.mode == FileMode ==>
              p.fileId == Sent(fileId) && p.videoPath == Sent(savedPath) && p.videoUrl == Omitted
    ensures form.mode == UrlMode ==>
              p.fileId == Omitted && p.videoPath == Omitted && p.videoUrl == Sent(form.videoUrl)
  {
    Payload(
      if form.mode == FileMode then Sent(fileId) else Omitted,
      if form.mode == FileMode then Sent(savedPath) else Omitted,
      if form.mode == FileMode then Omitted else Sent(form.videoUrl),
      form.numShorts, form.captionStyle, form.language, form.clipDuration,
      TimeField(form.startTime), TimeField(form.endTime),
      if form.customColor != DefaultColor then Sent(form.customColor) else Omitted,
      if form.customBgColor != "" then Sent(form.customBgColor) else Omitted,
      if form.customSize != DefaultSize then Sent(form.customSize) else Omitted)
  }

  /** The settings a run uses. */
  datatype Settings = Settings(
    numShorts: int, captionStyle: string, language: string, clipDuration: int,
    start: Option<Num>, end: Option<Num>, color: string, bgColor: string, size: int)

  /** The settings as the form states them. */
  function FormSettings(form: Form): Settings {
    Settings(form.numShorts, form.captionStyle, form.language, form.clipDuration,
             ParseTimeToSeconds(form.startTime), ParseTimeToSeconds(form.endTime),
             form.customColor, form.customBgColor, form.customSize)
  }

  /** The settings a receiver reads from a payload, taking every left-out
      key as its default. */
  function ReceivedSettings(p: Payload): Settings {
    Settings(p.numShorts, p.captionStyle, p.language, p.clipDuration,
             if p.startTime.Sent? then Some(p.startTime.value) else None,
             if p.endTime.Sent? then Some(p.endTime.value) else None,
             if p.customColor.Sent? then p.customColor.value else DefaultColor,
             if p.customBgColor.Sent? then p.customBgColor.value else "",
             if p.customSize.Sent? then p.customSize.value else DefaultSize)
  }

  /** Leaving defaults out loses nothing: reading the payload back with the
      defaults gives exactly the form's settings. */
  lemma PayloadKeepsSettings(form: Form, fileId: Option<string>, savedPath: Option<string>)
    ensures ReceivedSettings(BuildPayload(form, fileId, savedPath)) == FormSettings(form)
  {
    var p := BuildPayload(form, fileId, savedPath);
    assert p.startTime.Sent? ==> Some(p.startTime.value) == ParseTimeToSeconds(form.startTime);
    assert p.endTime.Sent? ==> Some(p.endTime.value) == ParseTimeToSeconds(form.endTime);
  }

  /** The names of the optional keys a payload sends. */
  function SentKeys(p: Payload): set<string> {
    (if p.fileId.Sent? then {"file_id"} else {}) +
    (if p.videoPath.Sent? then {"video_path"} else {}) +
    (if p.videoUrl.Sent? then {"video_url"} else {}) +
    (if p.startTime.Sent? then {"processing_start_time"} else {}) +
    (if p.endTime.Sent? then {"processing_end_time"} else {}) +
    (if p.customColor.Sent? then {"custom_color"} else {}) +
    (if p.customBgColor.Sent? then {"custom_bg_color"} else {}) +
    (if p.customSize.Sent? then {"custom_size"} else {})
  }

  /** With the initial settings, a file run sends only the upload's answer
      besides the four always-present settings. */
  lemma InitialFormSendsOnlyUpload(fileId: string, savedPath: string)
    ensures var p := BuildPayload(InitialForm, Some(fileId), Some(savedPath));
            SentKeys(p) == {"file_id", "video_path"} &&
            p.numShorts == 4 && p.captionStyle == "Karaoke" && p.clipDuration == 60 && p.language == ""
  {
  }

  // ---------------------------------------------------------------------
  // Upload progress and the Start button

  /** `Math.round(loaded / total * 100)`, rounding halves up. */
  function UploadPercent(loaded: nat, total: nat): (pct: int)
    requires 0 < total
    ensures loaded <= total ==> 0 <= pct <= 100
    ensures loaded == total ==> pct == 100
  {
    DivideBounds(loaded, total);
    ((loaded as real / total as real) * 100.0 + 0.5).Floor
  }

  /** What the share of bytes sent is, as a fraction. */
  lemma DivideBounds(loaded: nat, total: nat)
    requires 0 < total
    ensures var x := loaded as real / total as real;
      x * total as real == loaded as real && 0.0 <= x &&
      (loaded <= total ==> x <= 1.0) && (loaded == total ==> x == 1.0)
  {
    var t := total as real;
    var x := loaded as real / t;
    assert x * t == loaded as real;
    ScaledCompare(x, 0.0, t);
    assert 0.0 * t == 0.0;
    ScaledCompare(1.0, x, t);
    assert 1.0 * t == t;
    ScaledCompare(x, 1.0, t);
  }

  /** More bytes sent never shows a smaller percentage. */
  lemma UploadPercentMonotonic(l1: nat, l2: nat, total: nat)
    requires 0 < total && l1 <= l2
    ensures UploadPercent(l1, total) <= UploadPercent(l2, total)
  {
    var x1 := l1 as real / total as real;
    var x2 := l2 as real / total as real;
    assert x1 * total as real == l1 as real;
    assert x2 * total as real == l2 as real;
    assert x1 <= x2;
  }

  /** 100 is shown, and Start is disabled, as soon as 99.5% of the bytes
      are sent: before the upload has finished. */
  lemma UploadPercentRoundsUp(loaded: nat, total: nat)
    requires 0 < total && loaded <= total
    ensures UploadPercent(loaded, total) == 100 <==> 200 * loaded >= 199 * total
  {
    var x := loaded as real / total as real;
    DivideBounds(loaded, total);
    RoundsToHundred(x * 100.0 + 0.5);
    NearlyAll(x, loaded as real, total as real);
    assert 200.0 * loaded as real == (200 * loaded) as real;
    assert 199.0 * total as real == (199 * total) as real;
  }

  /** A value below 101 rounds down to 100 exactly when it is at least 100. */
  lemma RoundsToHundred(y: real)
    requires y < 101.0
    ensures y.Floor == 100 <==> y >= 100.0
  {
  }

  /** A share of at least 99.5% is 199 parts in 200 of the total. */
  lemma NearlyAll(x: real, sent: real, total: real)
    requires 0.0 < total && x * total == sent
    ensures x * 100.0 + 0.5 >= 100.0 <==> 200.0 * sent >= 199.0 * total
  {
    ScaledCompare(x, 0.995, total);
  }

  /** The Start button is enabled exactly when nothing is uploading or
      processing and the progress is not 100. */
  function StartEnabled(uploading: bool, processing: bool, progress: int): (enabled: bool)
    ensures enabled <==> !uploading && !processing && progress != 100
  {
    !(uploading || processing || (progress == 100 && !processing))
  }

  // ---------------------------------------------------------------------
  // Clip identifiers

  /** `url.split('/').pop()`: the part after the last '/'. */
  function LastSegment(url: string): (name: string)
    ensures '/' !in name
    ensures '/' !in url ==> name == url
  {
    var parts := Split(url, '/');
    assert '/' !in url ==> parts == [url] by {
      if '/' !in url {
        SplitWithoutSeparator(url, '/');
      }
    }
    parts[|parts| - 1]
  }

  lemma LastSegmentAfterSlash(prefix: string, name: string)
    requires '/' !in name
    ensures LastSegment(prefix + "/" + name) == name
  {
    SplitAround(prefix, name, '/');
    SplitWithoutSeparator(name, '/');
  }

  const ShortMarker := "_short_"

  /** `filename.split('_short_')[0]`: the part before the first `_short_`,
      or the whole name when there is none. */
  function FileIdOf(filename: string): (id: string)
    ensures StartsWith(filename, id)
    ensures forall i :: 0 <= i < |id| ==> !StartsWith(filename[i..], ShortMarker)
    ensures id == filename || StartsWith(filename[|id|..], ShortMarker)
    decreases |filename|
  {
    if filename == [] || StartsWith(filename, ShortMarker) then []
    else
      var rest := FileIdOf(filename[1..]);
      assert forall i :: 1 <= i <= |rest| ==> filename[i..] == filename[1..][i - 1..];
      [filename[0]] + rest
  }

  /** A file id without underscores is recovered from `{id}_short_{rest}`. */
  lemma {:induction false} FileIdOfShort(id: string, rest: string)
    requires '_' !in id
    ensures FileIdOf(id + ShortMarker + rest) == id
    decreases |id|
  {
    var s := id + ShortMarker + rest;
    if id == [] {
      assert s[..|ShortMarker|] == ShortMarker;
    } else {
      assert s[0] == id[0] && s[0] != '_';
      assert !StartsWith(s, ShortMarker) by {
        assert ShortMarker[0] == '_';
      }
      assert s[1..] == id[1..] + ShortMarker + rest;
      FileIdOfShort(id[1..], rest);
    }
  }

  /** The regeneration request names the upload the clip came from, for a
      clip served as `.../{fileId}_short_{n}.mp4`. */
  lemma FileIdOfClipUrl(prefix: string, fileId: string, n: string)
    requires '_' !in fileId && '/' !in fileId && '/' !in n
    ensures FileIdOf(LastSegment(prefix + "/" + fileId + ShortMarker + n + ".mp4")) == fileId
  {
    var name := fileId + ShortMarker + n + ".mp4";
    assert prefix + "/" + fileId + ShortMarker + n + ".mp4" == prefix + "/" + name;
    LastSegmentAfterSlash(prefix, name);
    FileIdOfShort(fileId, n + ".mp4");
    assert name == fileId + ShortMarker + (n + ".mp4");
  }
}
