# Viral Shorts — a Dafny model of the upload workflow, the backend helpers and the Android shell

This project models the logic at the core of the Viral Shorts product, which
turns a long video into short clips. It covers four parts of the product.

- **The upload page** (`frontend/src/app/upload/page.tsx`).
  - The pure helpers are Dafny functions in module `UploadForm`:
    - the start/end time parser, with its `H:M:S` / `M:S` forms and its fallback to `parseFloat`;
    - the start-before-end validation;
    - the JSON payload of `POST /api/process`, which leaves out settings that equal their defaults;
    - the upload percentage;
    - the Start button's enable rule;
    - the convention that names the upload a clip came from.
  - The page state is the class `UploadPage.Session`. Its fields are the file, the `uploading`/`processing` flags, the progress, the clip list, the form and the three dialogs. There is one method per handler: drop, remove, Start, the XMLHttpRequest progress/load/error callbacks, the process reply, regenerate, share and rocket content.
  - Each handler is one atomic step. The backend's answer is a parameter. The requests the page sends are returned as a list.
  - Clips are objects compared by identity (`===`), so `Clip` is a class with constant fields.
- **The content analyser** (`backend/services/analysis.py`), module `Analysis`:
  - the evenly spaced fallback clip scheduler, as a method with its loop;
  - the `#` clean-up of hashtags;
  - the unwrapping of the language model's clip list;
  - the fixed and error contents of the viral-content generator.
  - Parsed JSON is a `Json` datatype whose objects keep their member order.
- **The transcriber** (`backend/services/transcription.py`), module `Transcription`:
  - the loop that reshapes the local speech model's segments and words;
  - the rule for the language argument;
  - the Roman-Telugu rewrite.
  - The speech model and the transliteration function are parameters.
- **The Android shell** (`MainActivity.kt`), module `Shell`:
  - the one-slot mailbox that hands picked files back to the WebView, as class `Shell.MainActivity` with a log of every value delivered;
  - the picker choice;
  - the storage-permission request;
  - back-key routing;
  - the download file-name decoding;
  - the error-page rule.

Module `Basics` holds shared pieces:
- `Option`;
- `Split`/`Join` for one-character separators, with a round-trip lemma;
- substring search;
- decimal digits.

All times and durations are exact reals; integers are unbounded.

## Model

Source paths are relative to the repository root.

| member | source | states |
|---|---|---|
| Basics.Split | frontend/src/app/upload/page.tsx:135 | `split` on one character gives at least one part, no part holds the separator, and joining the parts gives back the string |
| Basics.SplitOfJoin | frontend/src/app/upload/page.tsx:135 | parts without the separator are recovered by splitting their join |
| Basics.NatToString | backend/services/analysis.py:181 | the decimal form of a number is digits only, without a leading zero, and reads back as the number |
| Basics.JoinContainsParts | backend/services/transcription.py:116 | every part occurs in the joined string |
| UploadForm.ParseTimeToSeconds | frontend/src/app/upload/page.tsx:131-140 | the parser gives nothing exactly for an empty field |
| UploadForm.ParseHoursMinutesSeconds | frontend/src/app/upload/page.tsx:134-136 | `H:M:S` is `Number(H)*3600 + Number(M)*60 + Number(S)`, with NaN spreading |
| UploadForm.ParseMinutesSeconds | frontend/src/app/upload/page.tsx:134-137 | `M:S` is `Number(M)*60 + Number(S)` |
| UploadForm.ParseOtherwise | frontend/src/app/upload/page.tsx:134-139 | with no colon, or with more than two colons, the field is read by `parseFloat` alone |
| UploadForm.ParseFloat | frontend/src/app/upload/page.tsx:139 | `parseFloat` gives a number exactly when the text starts with a digit, or with a point and a digit, and that number is never negative |
| UploadForm.ToNumber | frontend/src/app/upload/page.tsx:135 | `Number("")` is 0; a non-empty text that `Number` reads is read the same by `parseFloat`; one that starts with neither a digit nor a point is NaN |
| UploadForm.DigitsRead | frontend/src/app/upload/page.tsx:135-139 | `parseFloat` reads a run of digits as its value when the next character is not a digit, a point or an exponent mark; `Number` of a run of digits is its value |
| UploadForm.ParseClockDigits | frontend/src/app/upload/page.tsx:134-136 | `H:M:S` written in digits is `H*3600 + M*60 + S` seconds |
| UploadForm.RunValidation | frontend/src/app/upload/page.tsx:142-153 | validation fails if and only if both times read as finite numbers and the start is not before the end |
| UploadForm.NaNNeverBlocks | frontend/src/app/upload/page.tsx:144-147 | an empty or unreadable (NaN) time never blocks submission |
| UploadForm.ClockRangeRefused | frontend/src/app/upload/page.tsx:142-153 | for two digit `H:M:S` times, refusal is exactly start seconds >= end seconds |
| UploadForm.TimeField | frontend/src/app/upload/page.tsx:164-165 | a time key is left out exactly when its field is empty, and is otherwise the field's reading; a field of plain digits is sent as that many seconds |
| UploadForm.BuildPayload | frontend/src/app/upload/page.tsx:155-177 | `custom_color` is left out iff it is `#FFFFFF`; `custom_size` iff it is 18; `custom_bg_color` iff it is empty; each time iff its field is empty; file mode sends `file_id`/`video_path` and never `video_url`, and url mode does the reverse |
| UploadForm.PayloadKeepsSettings | frontend/src/app/upload/page.tsx:159-170 | reading the payload back, with a left-out key taken as its default, gives exactly the form's settings |
| UploadForm.InitialFormSendsOnlyUpload | frontend/src/app/upload/page.tsx:159-177 | with the initial controls, a file run sends only the upload's two keys besides the four fixed settings |
| UploadForm.UploadPercent | frontend/src/app/upload/page.tsx:229-234 | the rounded percentage is within 0..100 when no more than the total has been sent, and is 100 when all of it has |
| UploadForm.UploadPercentMonotonic | frontend/src/app/upload/page.tsx:229-234 | more bytes sent never shows a smaller percentage |
| UploadForm.UploadPercentRoundsUp | frontend/src/app/upload/page.tsx:229-234 | the bar shows 100 exactly when at least 199 of every 200 bytes are sent, so before the upload has finished |
| UploadForm.StartEnabled | frontend/src/app/upload/page.tsx:777 | Start is enabled iff nothing is uploading or processing and the progress is not 100 |
| UploadForm.LastSegment | frontend/src/app/upload/page.tsx:331-332 | the last URL segment holds no `/`, and is the whole URL when it has none |
| UploadForm.LastSegmentAfterSlash | frontend/src/app/upload/page.tsx:331 | the segment after the last `/` is the result |
| UploadForm.FileIdOf | frontend/src/app/upload/page.tsx:339 | the file id is a prefix of the name, contains no `_short_` start, and ends where the first `_short_` begins, or at the end of the name |
| UploadForm.FileIdOfShort | frontend/src/app/upload/page.tsx:339 | an id without `_` is recovered from `{id}_short_{rest}` |
| UploadForm.FileIdOfClipUrl | frontend/src/app/upload/page.tsx:325-339 | for a clip served as `.../{id}_short_{n}.mp4`, regeneration names upload `id` |
| UploadPage.ReplaceClip | frontend/src/app/upload/page.tsx:362-367 | the list keeps its length; the entries that are the target object become the new clip, and all others stay |
| UploadPage.ReplaceAbsentClip | frontend/src/app/upload/page.tsx:362-367 | a target that is no longer listed leaves the list unchanged |
| UploadPage.ReplaceKeepsDistinct | frontend/src/app/upload/page.tsx:362-367 | replacing by a new object keeps the clip objects distinct and removes the old object |
| UploadPage.ShareCaption | frontend/src/app/upload/page.tsx:290 | the share caption starts with the title and contains the description and every hashtag |
| UploadPage.CaptionRecoversParts | frontend/src/app/upload/page.tsx:290 | the share caption's lines are the title, a blank line, the description, a blank line and the hashtags, and the hashtag line splits back into the hashtags |
| UploadPage.Session.constructor | frontend/src/app/upload/page.tsx:57-98 | the initial state: no file, idle, progress 0, no clips, initial controls, dialogs closed |
| UploadPage.Session.OnDrop | frontend/src/app/upload/page.tsx:108-114 | the first dropped file replaces the selection and clears progress and clips; an empty drop changes nothing |
| UploadPage.Session.RemoveFile | frontend/src/app/upload/page.tsx:125-129 | no file, progress 0, no clips |
| UploadPage.Session.HandleUpload | frontend/src/app/upload/page.tsx:201-259 | clips are always emptied. Url mode with an empty URL or a refused range sends nothing; otherwise it sends the process request. File mode without a file or with a refused range sends nothing and leaves `uploading` false; otherwise progress restarts and the upload is sent, with `uploading` false if sending throws |
| UploadPage.Session.HandleProcess | frontend/src/app/upload/page.tsx:155-183 | uploading stops, processing starts, and the payload is sent |
| UploadPage.Session.OnUploadProgress | frontend/src/app/upload/page.tsx:229-234 | a computable length sets the progress to the rounded percentage; otherwise nothing changes |
| UploadPage.Session.OnUploadLoad | frontend/src/app/upload/page.tsx:236-246 | status 200 hands the answer to processing; a body that is not JSON changes nothing; any other status stops the upload and keeps the progress |
| UploadPage.Session.OnUploadError | frontend/src/app/upload/page.tsx:248-252 | a network error stops the upload and keeps the progress |
| UploadPage.Session.OnUploadFailure | frontend/src/app/upload/page.tsx:236-252 | a failed upload that also resets the progress, after which Start is enabled |
| UploadPage.Session.OnProcessResponse | frontend/src/app/upload/page.tsx:184-198 | processing ends; a non-empty clip list replaces the clips; otherwise they stay |
| UploadPage.Session.OpenCustomize | frontend/src/app/upload/page.tsx:267-271 | the dialog opens on the clip, with the page's caption style |
| UploadPage.Session.OpenShare | frontend/src/app/upload/page.tsx:274-277 | the share dialog opens on the clip and platform |
| UploadPage.Session.HandleRegenerate | frontend/src/app/upload/page.tsx:320-377 | the request names the file id from the clip URL. On success, exactly the entries that are the customised object become a new object with the new url/path and the same other fields; the list length is kept and the dialog closes. An empty name or a failure changes no clip and keeps the dialog. The regenerating flag ends false |
| UploadPage.Session.HandleShare | frontend/src/app/upload/page.tsx:279-318 | with a clip and platform chosen, the path and caption go to that platform. Success clears the clip and the password; failure keeps both; the sending flag ends false either way |
| UploadPage.Session.OpenRocketShare | frontend/src/app/upload/page.tsx:379-404 | the rocket request carries the clip's path, title and reason. Content is shown only on a successful reply that has content; loading ends false |
| UploadPage.FailedUploadBlocksRetry | frontend/src/app/upload/page.tsx:236-246 | a fully sent upload that the server refuses leaves the file selected, progress 100 and Start disabled |
| UploadPage.FailedUploadRetried | frontend/src/app/upload/page.tsx:236-252 | with the progress reset on failure, the same file is sent again |
| Analysis.EffectiveDuration | backend/services/analysis.py:147-151 | a measured duration of 0 (the probe failed) becomes 600 seconds; any other measurement is kept |
| Analysis.DetectHighEnergyMoments | backend/services/analysis.py:143-184 | a video no longer than a clip gives the one clip `[0, duration]` with score 1.0 and reason `Full video (short)`. Otherwise there are `max(num_clips, 0)` clips; each is exactly `clip_duration` long, starts after 0, ends before the end, and has score 0.8 and reason `Heuristic segment {i+1} (Fallback)`; starts are one `(duration - clip_duration)/(num_clips+1)` apart and strictly increase |
| Analysis.SlotsPlaced | backend/services/analysis.py:162-182 | clips laid out one spacing apart are each one clip long, lie strictly inside the video, and start in increasing order, so the clamp never fires |
| Analysis.StripHashes | backend/services/analysis.py:129 | `lstrip('#')` leaves a suffix, removes only `#`, and never leaves a leading `#` |
| Analysis.NormalizeTag | backend/services/analysis.py:129 | a cleaned tag is always well formed (one leading `#`), and equals the tag exactly when the tag was already well formed |
| Analysis.NormalizeTagFixesExactlyWellFormed | backend/services/analysis.py:128-129 | a cleaned tag is `#` plus a tag without leading `#`; cleaning leaves exactly such tags unchanged, and is idempotent |
| Analysis.NormalizeTags | backend/services/analysis.py:129 | the list keeps its length, and each tag is cleaned |
| Analysis.NormalizeTagsWellFormed | backend/services/analysis.py:128-129 | every cleaned tag is well formed, and cleaning a cleaned list changes nothing |
| Analysis.AnalyzeTranscript | backend/services/analysis.py:24-72 | no model, or a failed call or parse, gives `[]`. An object with `clips` gives that member, whatever it is. Any other object gives a one-element list, and anything else is passed on. The result is an object only when one came under `clips` |
| Analysis.CleanHashtags | backend/services/analysis.py:128-129 | iterating the `hashtags` value and cleaning each item. A list of strings gives its items in order; a string gives its characters; an object gives its keys. Each tag becomes `#` plus the item with its leading `#` removed, so every tag is well formed. A list holding a non-string, and a null, boolean or number, fail |
| Analysis.GenerateViralContent | backend/services/analysis.py:88-141 | no model gives the fixed content, and a failed call or parse gives the error content. An object reply without `hashtags` comes back as parsed. One with `hashtags` comes back with that member replaced by the cleaned tags and the same number of members, or as the error content when cleaning fails. A non-object reply comes back as parsed unless `"hashtags" in` it holds or raises, which gives the error content |
| Analysis.ModelReplyKeepsOtherMembers | backend/services/analysis.py:128-131 | when the model answers with an object whose hashtags can be cleaned, `hashtags` becomes the cleaned list and every other member is what the model sent |
| Analysis.NoModelContent | backend/services/analysis.py:88-96 | with no model, the title is the clip title, or `Check this out! 🔥` when that is empty, and the hashtags are the five fixed ones |
| Analysis.ErrorContent | backend/services/analysis.py:133-141 | on an error, the title is the clip title or `Must Watch! 🔥`, the description is the clip reason or `You need to see this!`, and the hashtags are the six fixed ones |
| Analysis.MentionsHashtags | backend/services/analysis.py:128 | `"hashtags" in` raises exactly on a null, boolean or number; it holds for an object with that key, a list with that string item, or a string containing it |
| Analysis.GeneratedHashtagsWellFormed | backend/services/analysis.py:88-141 | whenever the result is an object with `hashtags`, that member is a list of well-formed tags |
| Transcription.LanguageArgument | backend/services/transcription.py:84-85 | a language is passed to the model iff it is given and non-empty |
| Transcription.FormatLocalTranscript | backend/services/transcription.py:93-119 | one segment per model segment, in order, with start/end/text copied and the words copied (empty when missing); the text is the segment texts joined by single spaces; the detected language is the model's |
| Transcription.FullTextHasEverySegment | backend/services/transcription.py:113-116 | every segment's text occurs in the full text |
| Transcription.RomanizeTelugu | backend/services/transcription.py:133-153 | not Telugu gives the result unchanged. Telugu replaces the full text, each segment text and each word by its transliteration, keeps counts and times, and sets `roman_telugu` |
| Transcription.TranscribeWithRomanTelugu | backend/services/transcription.py:125-153 | the composition: the model is asked with the language argument. When Telugu was detected or requested, every text and every word is transliterated with its times kept; otherwise all are copied. Counts, times and the detected language are kept |
| Shell.AnyVideoType | android/app/src/main/java/com/nspcreativehub/autoshorts/MainActivity.kt:198 | true iff some type starts with `video/` or is `*/*` |
| Shell.IsVideoRequest | android/app/src/main/java/com/nspcreativehub/autoshorts/MainActivity.kt:197-198 | missing accept types default to `*/*`, which picks the video picker; otherwise the test above is applied |
| Shell.MainActivity.constructor | android/app/src/main/java/com/nspcreativehub/autoshorts/MainActivity.kt:29 | the slot starts empty and nothing has been delivered |
| Shell.MainActivity.Settle | android/app/src/main/java/com/nspcreativehub/autoshorts/MainActivity.kt:44-50 | the pending callback gets one value and the slot empties; every callback handed over has then had exactly one value |
| Shell.MainActivity.OnShowFileChooser | android/app/src/main/java/com/nspcreativehub/autoshorts/MainActivity.kt:187-213 | a pending callback first gets null, then the new one waits; the video document picker, its fallback or the generic picker is launched as the accept types say. The result is handled unless the content picker cannot be started either; that exception escapes with the new callback left waiting |
| Shell.MainActivity.OnContentPicked | android/app/src/main/java/com/nspcreativehub/autoshorts/MainActivity.kt:42-51 | the pending callback gets `[uri]` or null and the slot empties; each callback has had exactly one value |
| Shell.MainActivity.OnDocumentPicked | android/app/src/main/java/com/nspcreativehub/autoshorts/MainActivity.kt:54-68 | as above, and a picked document's grant is made persistent first |
| Shell.SupersededRequest | android/app/src/main/java/com/nspcreativehub/autoshorts/MainActivity.kt:192-194 | for two requests in a row, the first gets null, the second gets the file, and each gets exactly one value |
| Shell.PermissionFor | android/app/src/main/java/com/nspcreativehub/autoshorts/MainActivity.kt:274-286 | `READ_MEDIA_VIDEO` from SDK 33 (Android 13) on, `READ_EXTERNAL_STORAGE` below |
| Shell.CheckPermissions | android/app/src/main/java/com/nspcreativehub/autoshorts/MainActivity.kt:271-291 | a permission is requested iff it is the one for the SDK level (`READ_MEDIA_VIDEO` from 33, `READ_EXTERNAL_STORAGE` below) and not granted; a launch happens iff the list is non-empty |
| Shell.RouteKey | android/app/src/main/java/com/nspcreativehub/autoshorts/MainActivity.kt:294-300 | the WebView goes back iff the key is Back and it can go back |
| Shell.KeyConsumed | android/app/src/main/java/com/nspcreativehub/autoshorts/MainActivity.kt:294-300 | going back consumes the key; otherwise the default handling decides |
| Shell.UrlDecode | android/app/src/main/java/com/nspcreativehub/autoshorts/MainActivity.kt:245-246 | decoding never lengthens the name |
| Shell.UrlDecodeOfEncode | android/app/src/main/java/com/nspcreativehub/autoshorts/MainActivity.kt:245-249 | decoding undoes percent-encoding for every name; the encoding escapes only ASCII, so this holds for a UTF-8 decoder too |
| Shell.UrlDecodePlain | android/app/src/main/java/com/nspcreativehub/autoshorts/MainActivity.kt:245-246 | a name without `%` or `+` decodes to itself |
| Shell.UrlDecodeTrailingPercent | android/app/src/main/java/com/nspcreativehub/autoshorts/MainActivity.kt:245-249 | a `%` followed by fewer than two characters, after text without `%`, makes decoding fail |
| Shell.DownloadFileName | android/app/src/main/java/com/nspcreativehub/autoshorts/MainActivity.kt:242-249 | the saved name is the decoded name, or the undecoded name when decoding fails |
| Shell.ShowsErrorPage | android/app/src/main/java/com/nspcreativehub/autoshorts/MainActivity.kt:136 | the error page is shown iff the error is for the main frame |

## Left out

- Transport and concurrency:
  - `fetch` and `XMLHttpRequest` are replaced by their outcomes, which are parameters.
  - Each handler is one atomic step. Overlapping replies are not modelled, for example a process reply that arrives after a new file was dropped.
- Rendering, CSS and animations, `alert`, `console`, the clipboard copy with its `setTimeout`, and the input handlers that set the form controls. The form is a field that only the user changes.
- `watermark_text` and `watermark_image_path`: the page never sets them.
- UploadPage.Session.OpenShare: the page declares `openShare` but never calls it. Nothing else sets `sharingClip` to a clip, so in the page as shipped the share dialog never opens and `handleShare` always returns at its first check. The model keeps `openShare` so that the share path can be stated.
- UploadForm.ParseTimeToSeconds: only unsigned decimal literals (`digits[.digits]`) are modelled. Other JavaScript number forms read differently from the page:
  - On the `parseFloat` branch (no colon, or more than two), the model reads the unsigned decimal prefix and ignores the rest.
    - An exponent is cut off: `"1e3"` reads as 1 where the page reads 1000. So start `"3e3"` with end `"2000"` is refused by the page and accepted by the model.
    - A trailing blank and a hexadecimal literal read as on the page: `"5 "` is 5 and `"0x10"` is 0.
    - A leading blank, a sign or `Infinity` gives NaN, where the page trims the blank, takes the sign or reads `Infinity`.
  - In a part of an `H:M:S` or `M:S` time, every such form gives NaN. `Number` would trim blanks and take a sign, an exponent, a hexadecimal literal or `Infinity`.
- UploadForm.ParseFloat: reads only unsigned decimal literals, so it gives NaN for a leading blank, a sign or `Infinity`, and it stops before an exponent, as the ParseTimeToSeconds line above says.
- UploadForm.ToNumber: reads only unsigned decimal literals; blanks, signs, exponents, hexadecimal literals and `Infinity` give NaN.
- UploadForm.BuildPayload: a time that reads as NaN is kept as NaN, whereas `JSON.stringify` writes it as `null`.
- UploadForm.UploadPercent: requires a positive total, so a computable length of 0 is not modelled.
- UploadForm.UploadPercent: computes the share exactly, whereas the page rounds a double. Where the double falls just below a half the two differ. For 57 of 200 bytes the page shows 28 (`0.285 * 100` is `28.499999999999996`), and the model shows 29.
- UploadPage.Session.OnUploadLoad: the body is given already read.
  - `Unparseable` stands for the bodies whose handling throws inside the handler: text `JSON.parse` rejects, and `null`, whose `file_id` lookup throws. Nothing changes for these.
  - Any other JSON value (a number, string, array, boolean or object) is an `UploadReply` carrying the ids it has. An id it lacks reads as `undefined` and becomes `null` through the defaults of `handleProcess`.
- Analysis: these are not modelled:
  - the Gemini calls and prompts;
  - the `ffprobe` subprocess of `get_video_duration`. It is called twice, and only the second result is kept, so that result is the parameter;
  - Python float rounding, since reals are exact.
- The `Json` type of module `Analysis`: an object's keys are taken to be distinct. For a duplicate key, `json.loads` keeps the last value while `Get` finds the first. `AnalyzeTranscript` (the `clips` lookup), `CleanHashtags` (the keys of an object) and `GenerateViralContent` (the `hashtags` lookup and update) rely on this.
- Transcription: these are not modelled:
  - the OpenAI transcription path, which returns the SDK's own object;
  - model loading and its errors, which are re-raised;
  - the transliteration module, whose function is a parameter.
- Transcription.RomanizeTelugu: it returns the rewritten transcript as a new value. Nothing else in the source holds the dict it updates in place.
- Shell: these are not modelled:
  - WebView settings;
  - the progress bar;
  - JavaScript alerts;
  - DownloadManager enqueueing and Toasts;
  - the splash screen;
  - the Activity lifecycle;
  - the permission-result Toast.
- Shell.MainActivity.OnDocumentPicked: if `takePersistableUriPermission` throws, the exception escapes the callback and the slot stays filled. That case is not modelled.
- Shell.UrlDecode: only escapes of two ASCII hexadecimal digits are decoded. The platform differs in three cases:
  - An escaped byte of 0x80 or above becomes the character with that code. The platform instead decodes runs of such bytes as UTF-8.
  - The platform reads an escape with `Integer.parseInt(…, 16)`, which also accepts a leading sign (`"%+1"` is U+0001) and non-ASCII digits such as fullwidth `Ａ`–`Ｆ`.
  - The model rejects those escapes, so `DownloadFileName` keeps the undecoded name where the platform saves the decoded one.
- `frontend/src/app/page.tsx`, `frontend/src/components/Footer.tsx`, `backend/main.py`, `backend/services/downloader.py` and `backend/services/social_media.py` are not part of this model. They hold markup, routing and wrappers over foreign libraries.

## Findings

| source | as written | input that shows it | evidently intended | confidence | as-written member | corrected member |
|---|---|---|---|---|---|---|
| frontend/src/app/upload/page.tsx:236-252 | A non-200 status or a network error only sets `uploading` to false and keeps the progress. Start is disabled while the progress is 100 (line 777). | Drop a file, press Start, let all its bytes go out (progress 100), then have the server answer 500. Start stays disabled with the file still selected. | A failed upload can be retried with the same file: the progress goes back to 0. | high, not executed | UploadPage.FailedUploadBlocksRetry | UploadPage.Session.OnUploadFailure |
