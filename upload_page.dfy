/** The upload page: a session holding the selected video, the upload and
    processing flags, the progress, the generated clips and the customise,
    share and rocket dialogs, with one method per handler. Each handler is
    one atomic step; what the backend answers is a parameter, and what the
    page sends is returned as a list of requests. The upload is split the
    way the page splits it: the click handler, the XMLHttpRequest callbacks
    and the reply to the process request each are a step of their own. */
module UploadPage {
  import opened Basics
  import opened UploadForm

  /** A generated clip. The page never changes a clip object; it compares
      clips with `===`, which is object identity, and so is `==` on these
      references. */
  class Clip {
    const path: string
    const url: string
    const reason: string
    const start: real
    const end: real
    const title: Option<string>
    const description: Option<string>
    const hashtags: Option<seq<string>>

    constructor (path: string, url: string, reason: string, start: real, end: real,
                 title: Option<string>, description: Option<string>, hashtags: Option<seq<string>>)
      ensures this.path == path && this.url == url && this.reason == reason
      ensures this.start == start && this.end == end
      ensures this.title == title && this.description == description && this.hashtags == hashtags
    {
      this.path := path;
      this.url := url;
      this.reason := reason;
      this.start := start;
      this.end := end;
      this.title := title;
      this.description := description;
      this.hashtags := hashtags;
    }
  }

  /** Everything but the media reference is the same. */
  predicate SameDetails(a: Clip, b: Clip) {
    a.reason == b.reason && a.start == b.start && a.end == b.end &&
    a.title == b.title && a.description == b.description && a.hashtags == b.hashtags
  }

  /** No clip object occurs twice. */
  predicate Distinct(clips: seq<Clip>) {
    forall i, j :: 0 <= i < j < |clips| ==> clips[i] != clips[j]
  }

  /** `clips.map(c => c === target ? updated : c)`: only the entries that
      are the target object change, and they become `updated`. */
  function ReplaceClip(clips: seq<Clip>, target: Clip, updated: Clip): (r: seq<Clip>)
    ensures |r| == |clips|
    ensures forall i :: 0 <= i < |clips| && clips[i] != target ==> r[i] == clips[i]
    ensures forall i :: 0 <= i < |clips| && clips[i] == target ==> r[i] == updated
  {
    seq(|clips|, i requires 0 <= i < |clips| => if clips[i] == target then updated else clips[i])
  }

  /** A reply about a clip that is no longer listed changes nothing. */
  lemma ReplaceAbsentClip(clips: seq<Clip>, target: Clip, updated: Clip)
    requires target !in clips
    ensures ReplaceClip(clips, target, updated) == clips
  {
  }

  /** Replacing a listed clip by a new object keeps the objects distinct,
      drops the old object and lists the new one once, in its place. */
  lemma ReplaceKeepsDistinct(clips: seq<Clip>, target: Clip, updated: Clip)
    requires Distinct(clips) && updated !in clips
    ensures Distinct(ReplaceClip(clips, target, updated))
    ensures updated != target ==> target !in ReplaceClip(clips, target, updated)
  {
    var r := ReplaceClip(clips, target, updated);
    forall i, j | 0 <= i < j < |r| ensures r[i] != r[j] {
      if clips[i] == target {
        assert clips[j] != target;
      }
    }
  }

  /** The caption of a share request:
      `${title||''}\n\n${description||''}\n\n${(hashtags||[]).join(' ')}`. */
  function ShareCaption(clip: Clip): (caption: string)
    ensures StartsWith(caption, clip.title.GetOr(""))
    ensures Contains(caption, clip.description.GetOr(""))
    ensures forall i :: 0 <= i < |clip.hashtags.GetOr([])| ==> Contains(caption, clip.hashtags.GetOr([])[i])
  {
    var title := clip.title.GetOr("");
    var description := clip.description.GetOr("");
    var tags := Join(clip.hashtags.GetOr([]), ' ');
    var caption := title + "\n\n" + description + "\n\n" + tags;
    assert caption[..|title|] == title;
    assert (description + "\n\n" + tags)[..|description|] == description;
    assert caption == (title + "\n\n") + (description + "\n\n" + tags);
    ContainsInSuffix(title + "\n\n", description + "\n\n" + tags, description);
    assert caption == (title + "\n\n" + description + "\n\n") + tags;
    JoinedPartsFollow(title + "\n\n" + description + "\n\n", clip.hashtags.GetOr([]), ' ');
    caption
  }

  /** Every part occurs in a string that ends with their join. */
  lemma JoinedPartsFollow(prefix: string, parts: seq<string>, sep: char)
    ensures forall i :: 0 <= i < |parts| ==> Contains(prefix + Join(parts, sep), parts[i])
  {
    forall i | 0 <= i < |parts| ensures Contains(prefix + Join(parts, sep), parts[i]) {
      JoinContainsParts(parts, sep, i);
      ContainsInSuffix(prefix, Join(parts, sep), parts[i]);
    }
  }

  /** The caption loses nothing: with single-line title and description and
      hashtags without blanks, its lines are the title, an empty line, the
      description, an empty line and the hashtag line, and that line splits
      back into the hashtags. */
  lemma CaptionRecoversParts(clip: Clip)
    requires clip.title.Some? && clip.description.Some? && clip.hashtags.Some? && |clip.hashtags.value| >= 1
    requires '\n' !in clip.title.value && '\n' !in clip.description.value
    requires Excludes(clip.hashtags.value, '\n') && Excludes(clip.hashtags.value, ' ')
    ensures Split(ShareCaption(clip), '\n')
         == [clip.title.value, "", clip.description.value, "", Join(clip.hashtags.value, ' ')]
    ensures Split(Join(clip.hashtags.value, ' '), ' ') == clip.hashtags.value
  {
    var t, d, tags := clip.title.value, clip.description.value, Join(clip.hashtags.value, ' ');
    var lines := [t, "", d, "", tags];
    JoinExcludes(clip.hashtags.value, ' ', '\n');
    assert Join(lines[3..], '\n') == "" + "\n" + tags by {
      assert lines[3..] == ["", tags] && lines[4..] == [tags];
    }
    assert Join(lines[1..], '\n') == "" + "\n" + d + "\n\n" + tags by {
      assert lines[1..] == ["", d, "", tags] && lines[2..] == [d, "", tags];
      assert lines[2..][1..] == lines[3..];
      assert lines[1..][1..] == lines[2..];
    }
    assert Join(lines, '\n') == t + "\n\n" + d + "\n\n" + tags;
    SplitOfJoin(lines, '\n');
    SplitOfJoin(clip.hashtags.value, ' ');
  }

  datatype VideoFile = VideoFile(name: string, size: nat)

  datatype Platform = Instagram | YouTube

  /** The caption settings of the customise dialog. */
  datatype CaptionLook = CaptionLook(style: string, color: string, bgColor: string, size: int)

  datatype RocketContent = RocketContent(
    title: string, description: string, hashtags: seq<string>,
    captionInstagram: string, captionYoutube: string)

  /** A request the page sends to the backend. */
  datatype Request =
    | UploadRequest(file: VideoFile)
    | ProcessRequest(payload: Payload)
    | RegenerateRequest(fileId: string, startTime: real, endTime: real, look: CaptionLook)
    | ShareRequest(platform: Platform, videoPath: string, caption: string, username: string, password: string)
    | RocketRequest(clipPath: string, clipTitle: string, clipReason: string)

  /** The upload endpoint's body: the two keys, or text that is not JSON. */
  datatype UploadReply = UploadReply(fileId: Option<string>, savedPath: Option<string>) | Unparseable

  /** The process endpoint's answer: the clips of its body (none when the
      key is missing), or a failure of the request or of reading the body. */
  datatype ProcessOutcome = ProcessReply(clips: seq<Clip>) | ProcessFailed

  datatype RegenOutcome = Regenerated(url: string, path: string) | RegenFailed

  datatype ShareOutcome = Shared | ShareRejected(detail: string) | ShareUnreachable

  datatype RocketOutcome = RocketReply(success: bool, content: Option<RocketContent>) | RocketFailed

  class Session {
    var file: Option<VideoFile>
    var uploading: bool
    var processing: bool
    var progress: int
    var clips: seq<Clip>
    /** The input controls, which only the user changes. */
    var form: Form

    var customizingClip: Clip?
    var regenLook: CaptionLook
    var isRegenerating: bool

    var sharingClip: Clip?
    var sharePlatform: Option<Platform>
    var shareUsername: string
    var sharePassword: string
    var sharingVideo: bool

    var rocketClip: Clip?
    var rocketContent: Option<RocketContent>
    var loadingRocket: bool

    /** Progress is a percentage, upload and processing never overlap, and
        the listed clips are distinct objects. */
    ghost predicate Valid()
      reads this
    {
      0 <= progress <= 100 && !(uploading && processing) && Distinct(clips)
    }

    ghost function Workflow(): (Option<VideoFile>, bool, bool, int, seq<Clip>)
      reads this
    {
      (file, uploading, processing, progress, clips)
    }

    ghost function CustomizeDialog(): (Clip?, CaptionLook, bool)
      reads this
    {
      (customizingClip, regenLook, isRegenerating)
    }

    ghost function ShareDialog(): (Clip?, Option<Platform>, string, string, bool)
      reads this
    {
      (sharingClip, sharePlatform, shareUsername, sharePassword, sharingVideo)
    }

    ghost function RocketDialog(): (Clip?, Option<RocketContent>, bool)
      reads this
    {
      (rocketClip, rocketContent, loadingRocket)
    }

    /** The Start button is clickable (its `disabled` rule, negated). */
    function CanStart(): bool
      reads this
    {
      StartEnabled(uploading, processing, progress)
    }

    constructor ()
      ensures Valid() && form == InitialForm
      ensures file == None && !uploading && !processing && progress == 0 && clips == []
      ensures CustomizeDialog() == (null, CaptionLook("Karaoke", "#FFFFFF", "#000000", 18), false)
      ensures ShareDialog() == (null, None, "", "", false)
      ensures RocketDialog() == (null, None, false)
    {
      file, uploading, processing, progress, clips := None, false, false, 0, [];
      form := InitialForm;
      customizingClip, regenLook, isRegenerating := null, CaptionLook("Karaoke", "#FFFFFF", "#000000", 18), false;
      sharingClip, sharePlatform, shareUsername, sharePassword, sharingVideo := null, None, "", "", false;
      rocketClip, rocketContent, loadingRocket := null, None, false;
    }

    /** `onDrop`: the first accepted file replaces the selection and clears
        progress and clips; an empty drop changes nothing. */
    method OnDrop(accepted: seq<VideoFile>)
      requires Valid()
      modifies this
      ensures Valid()
      ensures |accepted| > 0 ==> file == Some(accepted[0]) && progress == 0 && clips == []
      ensures |accepted| == 0 ==> Workflow() == old(Workflow())
      ensures uploading == old(uploading) && processing == old(processing) && form == old(form)
      ensures CustomizeDialog() == old(CustomizeDialog()) && ShareDialog() == old(ShareDialog())
      ensures RocketDialog() == old(RocketDialog())
    {
      if |accepted| > 0 {
        file := Some(accepted[0]);
        progress := 0;
        clips := [];
      }
    }

    /** `removeFile`. */
    method RemoveFile()
      requires Valid()
      modifies this
      ensures Valid()
      ensures file == None && progress == 0 && clips == []
      ensures uploading == old(uploading) && processing == old(processing) && form == old(form)
      ensures CustomizeDialog() == old(CustomizeDialog()) && ShareDialog() == old(ShareDialog())
      ensures RocketDialog() == old(RocketDialog())
    {
      file := None;
      progress := 0;
      clips := [];
    }

    /** `handleUpload`, run by the Start button, which is clickable only
        when `CanStart()`. The clips are always cleared. In url mode an
        empty URL or a refused time range sends nothing; otherwise the
        process request goes out at once. In file mode a missing file or a
        refused time range sends nothing and leaves `uploading` false;
        otherwise the progress restarts and the upload is sent, unless
        sending throws. */
    method HandleUpload(sendThrows: bool) returns (sent: seq<Request>)
      requires Valid() && CanStart()
      modifies this
      ensures Valid()
      ensures clips == []
      ensures form == old(form) && file == old(file)
      ensures CustomizeDialog() == old(CustomizeDialog()) && ShareDialog() == old(ShareDialog())
      ensures RocketDialog() == old(RocketDialog())
      ensures form.mode == UrlMode ==>
        progress == old(progress) && !uploading &&
        if form.videoUrl != "" && RunValidation(form.startTime, form.endTime) then
          processing && sent == [ProcessRequest(BuildPayload(form, None, None))]
        else
          !processing && sent == []
      ensures form.mode == FileMode ==>
        !processing &&
        if file.Some? && RunValidation(form.startTime, form.endTime) then
          progress == 0 && uploading == !sendThrows &&
          sent == if sendThrows then [] else [UploadRequest(file.value)]
        else
          !uploading && progress == old(progress) && sent == []
    {
      clips := [];
      if form.mode == UrlMode {
        if form.videoUrl == "" {
          return [];
        }
        if RunValidation(form.startTime, form.endTime) {
          sent := HandleProcess(None, None);
        } else {
          sent := [];
        }
        return;
      }
      if file.None? {
        return [];
      }
      if !RunValidation(form.startTime, form.endTime) {
        return [];
      }
      uploading := true;
      progress := 0;
      if sendThrows {
        uploading := false;
        sent := [];
      } else {
        sent := [UploadRequest(file.value)];
      }
    }

    /** `handleProcess`: the upload flag drops, processing starts and the
        payload is sent. */
    method HandleProcess(fileId: Option<string>, savedPath: Option<string>) returns (sent: seq<Request>)
      requires Valid() && !processing
      modifies this
      ensures Valid()
      ensures !uploading && processing
      ensures sent == [ProcessRequest(BuildPayload(form, fileId, savedPath))]
      ensures file == old(file) && progress == old(progress) && clips == old(clips) && form == old(form)
      ensures CustomizeDialog() == old(CustomizeDialog()) && ShareDialog() == old(ShareDialog())
      ensures RocketDialog() == old(RocketDialog())
    {
      uploading := false;
      processing := true;
      sent := [ProcessRequest(BuildPayload(form, fileId, savedPath))];
    }

    /** `xhr.upload.onprogress`, for the upload in flight. The browser
        reports a known length as a positive total no smaller than what has
        been sent. */
    method OnUploadProgress(lengthComputable: bool, loaded: nat, total: nat)
      requires Valid() && uploading
      requires lengthComputable ==> 0 < total && loaded <= total
      modifies this
      ensures Valid()
      ensures progress == if lengthComputable then UploadPercent(loaded, total) else old(progress)
      ensures file == old(file) && uploading == old(uploading) && processing == old(processing)
      ensures clips == old(clips) && form == old(form)
      ensures CustomizeDialog() == old(CustomizeDialog()) && ShareDialog() == old(ShareDialog())
      ensures RocketDialog() == old(RocketDialog())
    {
      if lengthComputable {
        progress := UploadPercent(loaded, total);
      }
    }

    /** `xhr.onload`: status 200 hands the answer to `handleProcess`; any
        other status ends the upload. A 200 whose body is not JSON throws
        inside the callback, and nothing changes. The progress is kept in
        every case. */
    method OnUploadLoad(status: int, reply: UploadReply) returns (sent: seq<Request>)
      requires Valid() && uploading
      modifies this
      ensures Valid()
      ensures status == 200 && reply.UploadReply? ==>
        !uploading && processing && sent == [ProcessRequest(BuildPayload(form, reply.fileId, reply.savedPath))]
      ensures status == 200 && reply.Unparseable? ==> uploading && !processing && sent == []
      ensures status != 200 ==> !uploading && !processing && sent == []
      ensures file == old(file) && progress == old(progress) && clips == old(clips) && form == old(form)
      ensures CustomizeDialog() == old(CustomizeDialog()) && ShareDialog() == old(ShareDialog())
      ensures RocketDialog() == old(RocketDialog())
    {
      if status == 200 {
        if reply.UploadReply? {
          sent := HandleProcess(reply.fileId, reply.savedPath);
        } else {
          sent := [];
        }
      } else {
        uploading := false;
        sent := [];
      }
    }

    /** `xhr.onerror`: the upload ends; the progress is kept. */
    method OnUploadError()
      requires Valid() && uploading
      modifies this
      ensures Valid()
      ensures !uploading && !processing
      ensures file == old(file) && progress == old(progress) && clips == old(clips) && form == old(form)
      ensures CustomizeDialog() == old(CustomizeDialog()) && ShareDialog() == old(ShareDialog())
      ensures RocketDialog() == old(RocketDialog())
    {
      uploading := false;
    }

    /** A failed upload (a status other than 200, or a network error) that
        also puts the progress back to 0, so that Start can be pressed
        again with the same file. */
    method OnUploadFailure()
      requires Valid() && uploading
      modifies this
      ensures Valid()
      ensures !uploading && !processing && progress == 0 && CanStart()
      ensures file == old(file) && clips == old(clips) && form == old(form)
      ensures CustomizeDialog() == old(CustomizeDialog()) && ShareDialog() == old(ShareDialog())
      ensures RocketDialog() == old(RocketDialog())
    {
      uploading := false;
      progress := 0;
    }

    /** The reply to the process request: processing ends; a non-empty clip
        list replaces the clips, anything else leaves them as they were.
        Parsing a body yields fresh, distinct clip objects. */
    method OnProcessResponse(outcome: ProcessOutcome)
      requires Valid() && processing
      requires outcome.ProcessReply? ==> Distinct(outcome.clips)
      modifies this
      ensures Valid()
      ensures !processing && !uploading
      ensures clips == if outcome.ProcessReply? && |outcome.clips| > 0 then outcome.clips else old(clips)
      ensures file == old(file) && progress == old(progress) && form == old(form)
      ensures CustomizeDialog() == old(CustomizeDialog()) && ShareDialog() == old(ShareDialog())
      ensures RocketDialog() == old(RocketDialog())
    {
      processing := false;
      if outcome.ProcessReply? && |outcome.clips| > 0 {
        clips := outcome.clips;
      }
    }

    /** `openCustomize`: the dialog opens on the clip with the page's style. */
    method OpenCustomize(clip: Clip)
      requires Valid()
      modifies this
      ensures Valid()
      ensures customizingClip == clip
      ensures regenLook == old(regenLook).(style := form.captionStyle)
      ensures isRegenerating == old(isRegenerating) && Workflow() == old(Workflow()) && form == old(form)
      ensures ShareDialog() == old(ShareDialog()) && RocketDialog() == old(RocketDialog())
    {
      customizingClip := clip;
      regenLook := regenLook.(style := form.captionStyle);
    }

    /** `openShare`. */
    method OpenShare(clip: Clip, platform: Platform)
      requires Valid()
      modifies this
      ensures Valid()
      ensures sharingClip == clip && sharePlatform == Some(platform)
      ensures shareUsername == old(shareUsername) && sharePassword == old(sharePassword)
      ensures sharingVideo == old(sharingVideo) && Workflow() == old(Workflow()) && form == old(form)
      ensures CustomizeDialog() == old(CustomizeDialog()) && RocketDialog() == old(RocketDialog())
    {
      sharingClip := clip;
      sharePlatform := Some(platform);
    }

    /** `handleRegenerate`: the clip's upload is named by the part of the
        last URL segment before `_short_`. On success exactly the entries
        that are the customised clip object become a new object with the new
        URL and path and the same details, and the dialog closes; an empty
        last segment or a failed request changes no clip and keeps the
        dialog open. */
    method HandleRegenerate(outcome: RegenOutcome) returns (sent: seq<Request>)
      requires Valid()
      modifies this
      ensures Valid()
      ensures old(customizingClip) == null ==> sent == [] && CustomizeDialog() == old(CustomizeDialog()) && clips == old(clips)
      ensures old(customizingClip) != null ==>
        var c := old(customizingClip);
        var name := LastSegment(c.url);
        !isRegenerating &&
        (name == "" ==> sent == []) &&
        (name != "" ==> sent == [RegenerateRequest(FileIdOf(name), c.start, c.end, regenLook)]) &&
        if name != "" && outcome.Regenerated? then
          customizingClip == null && |clips| == |old(clips)| &&
          (forall i :: 0 <= i < |clips| && old(clips)[i] != c ==> clips[i] == old(clips)[i]) &&
          (forall i :: 0 <= i < |clips| && old(clips)[i] == c ==>
             fresh(clips[i]) && clips[i].url == outcome.url && clips[i].path == outcome.path &&
             SameDetails(clips[i], c))
        else
          customizingClip == c && clips == old(clips)
      ensures regenLook == old(regenLook) && form == old(form)
      ensures file == old(file) && uploading == old(uploading) && processing == old(processing)
      ensures progress == old(progress)
      ensures ShareDialog() == old(ShareDialog()) && RocketDialog() == old(RocketDialog())
    {
      if customizingClip == null {
        return [];
      }
      var c := customizingClip;
      isRegenerating := true;
      var name := LastSegment(c.url);
      if name == "" {
        sent := [];
      } else {
        sent := [RegenerateRequest(FileIdOf(name), c.start, c.end, regenLook)];
        if outcome.Regenerated? {
          var updated := new Clip(outcome.path, outcome.url, c.reason, c.start, c.end,
                                  c.title, c.description, c.hashtags);
          ReplaceKeepsDistinct(clips, c, updated);
          clips := ReplaceClip(clips, c, updated);
          customizingClip := null;
        }
      }
      isRegenerating := false;
    }

    /** `handleShare`: with a clip and a platform chosen, the clip's path
        and caption go to that platform's endpoint. Success closes the
        dialog and clears the password; a failure keeps both. The sending
        flag is off afterwards either way. */
    method HandleShare(outcome: ShareOutcome) returns (sent: seq<Request>)
      requires Valid()
      modifies this
      ensures Valid()
      ensures old(sharingClip) == null || old(sharePlatform).None? ==>
        sent == [] && ShareDialog() == old(ShareDialog())
      ensures old(sharingClip) != null && old(sharePlatform).Some? ==>
        var c := old(sharingClip);
        sent == [ShareRequest(old(sharePlatform).value, c.path, ShareCaption(c), old(shareUsername), old(sharePassword))] &&
        !sharingVideo && sharePlatform == old(sharePlatform) && shareUsername == old(shareUsername) &&
        if outcome == Shared then sharingClip == null && sharePassword == ""
        else sharingClip == c && sharePassword == old(sharePassword)
      ensures Workflow() == old(Workflow()) && form == old(form)
      ensures CustomizeDialog() == old(CustomizeDialog()) && RocketDialog() == old(RocketDialog())
    {
      if sharingClip == null || sharePlatform.None? {
        return [];
      }
      sharingVideo := true;
      sent := [ShareRequest(sharePlatform.value, sharingClip.path, ShareCaption(sharingClip), shareUsername, sharePassword)];
      if outcome == Shared {
        sharingClip := null;
        sharePassword := "";
      }
      sharingVideo := false;
    }

    /** `openRocketShare`: the dialog opens on the clip with no content, asks
        for content with the clip's path, title and reason, and shows what
        comes back only when the reply reports success and carries content. */
    method OpenRocketShare(clip: Clip, outcome: RocketOutcome) returns (sent: seq<Request>)
      requires Valid()
      modifies this
      ensures Valid()
      ensures rocketClip == clip && !loadingRocket
      ensures sent == [RocketRequest(clip.path, clip.title.GetOr(""), clip.reason)]
      ensures rocketContent ==
        if outcome.RocketReply? && outcome.success && outcome.content.Some? then outcome.content else None
      ensures Workflow() == old(Workflow()) && form == old(form)
      ensures CustomizeDialog() == old(CustomizeDialog()) && ShareDialog() == old(ShareDialog())
    {
      rocketClip := clip;
      rocketContent := None;
      loadingRocket := true;
      sent := [RocketRequest(clip.path, clip.title.GetOr(""), clip.reason)];
      if outcome.RocketReply? && outcome.success && outcome.content.Some? {
        rocketContent := outcome.content;
      }
      loadingRocket := false;
    }
  }

  /** As written: a file whose bytes all went out but whose upload the
      server then refuses leaves Start disabled with the file still
      selected, so it cannot be retried without choosing it again. */
  method FailedUploadBlocksRetry(video: VideoFile, size: nat) returns (s: Session)
    requires size > 0
    ensures s.file == Some(video) && !s.uploading && !s.processing
    ensures s.progress == 100 && !s.CanStart()
  {
    s := new Session();
    s.OnDrop([video]);
    var upload := s.HandleUpload(false);
    s.OnUploadProgress(true, size, size);
    var none := s.OnUploadLoad(500, UploadReply(None, None));
  }

  /** With the progress put back on failure, the same file can be sent again. */
  method FailedUploadRetried(video: VideoFile, size: nat) returns (s: Session, retry: seq<Request>)
    requires size > 0
    ensures s.file == Some(video) && s.uploading && retry == [UploadRequest(video)]
  {
    s := new Session();
    s.OnDrop([video]);
    var upload := s.HandleUpload(false);
    s.OnUploadProgress(true, size, size);
    s.OnUploadFailure();
    retry := s.HandleUpload(false);
  }
}
