/** The content analyser of the backend: the position-based clip scheduler
    used when no model is available, the unwrapping of the language model's
    clip list and the viral-content generator with its hashtag clean-up.
    The language model and the duration probe are outside the model: their
    answers are parameters. */
module Analysis {
  import opened Basics

  // ---------------------------------------------------------------------
  // Evenly spaced fallback clips

  /** A proposed clip: where it starts and ends, in seconds, how good it is
      thought to be and why it was chosen. */
  datatype Moment = Moment(start: real, end: real, score: real, reason: string)

  /** The duration used for scheduling: a probe that failed reports 0, and
      that stands for ten minutes. */
  function EffectiveDuration(measured: real): (d: real)
    ensures measured != 0.0 ==> d == measured
    ensures measured == 0.0 ==> d == 600.0
    ensures d != 0.0
  {
    if measured == 0.0 then 600.0 else measured
  }

  /** `f"Heuristic segment {k} (Fallback)"`. */
  function SegmentReason(k: nat): string {
    "Heuristic segment " + NatToString(k) + " (Fallback)"
  }

  /** The gap between the starts of neighbouring clips. */
  function Spacing(duration: real, clip: real, count: int): real {
    if count > 0 then (duration - clip) / (count + 1) as real else 0.0
  }

  /** The start of the k-th clip (from 0) when starts are `step` apart. */
  function SlotStart(step: real, k: nat): real {
    (k + 1) as real * step
  }

  /** The k-th clip (from 0) when starts are `step` apart. */
  function Slot(step: real, clip: real, k: nat): Moment {
    Moment(SlotStart(step, k), SlotStart(step, k) + clip, 0.8, SegmentReason(k + 1))
  }

  /** With `count` starts spread over `room`, the k-th lies strictly inside
      it, and later starts lie further on. */
  lemma SlotInside(room: real, count: nat, step: real, k: nat)
    requires 0.0 < room && k < count && step == room / (count + 1) as real
    ensures 0.0 < step && 0.0 < SlotStart(step, k) < room
    ensures forall j: nat :: k < j ==> SlotStart(step, k) < SlotStart(step, j)
  {
    var n := (count + 1) as real;
    assert step * n == room;
    ScaledCompare(0.0, step, n);
    assert 0.0 * n == 0.0;
    ProductPositive((k + 1) as real, step);
    StartsApart(step, k, count + 1);
    forall j: nat | k < j ensures SlotStart(step, k) < SlotStart(step, j) {
      StartsApart(step, k, j + 1);
    }
  }

  /** A later multiple of a positive step is further on. */
  lemma StartsApart(step: real, k: nat, m: nat)
    requires 0.0 < step && k + 1 < m
    ensures SlotStart(step, k) < m as real * step
  {
    assert m as real * step - (k + 1) as real * step == (m - k - 1) as real * step;
    ProductPositive((m - k - 1) as real, step);
  }

  /** `detect_high_energy_moments` once the duration has been probed. A
      video no longer than one clip gives itself, whole, as the only clip.
      Otherwise there is one clip per requested clip (none when the request
      is not positive), each exactly one clip long, starting after 0 and
      ending before the end of the video, with starts one `Spacing` apart and
      so strictly increasing. The clamp the source applies to a start that
      would overrun the video never fires. */
  method DetectHighEnergyMoments(measured: real, numClips: int, clipDuration: int) returns (clips: seq<Moment>)
    ensures var d := EffectiveDuration(measured);
      d <= clipDuration as real ==> clips == [Moment(0.0, d, 1.0, "Full video (short)")]
    ensures var d := EffectiveDuration(measured);
      d > clipDuration as real ==>
        |clips| == (if numClips > 0 then numClips else 0) &&
        forall i :: 0 <= i < |clips| ==> clips[i] == Slot(Spacing(d, clipDuration as real, numClips), clipDuration as real, i)
    ensures var d := EffectiveDuration(measured);
      d > clipDuration as real ==>
        forall i :: 0 <= i < |clips| ==>
          clips[i].end - clips[i].start == clipDuration as real && 0.0 < clips[i].start && clips[i].end < d
    ensures var d := EffectiveDuration(measured);
      d > clipDuration as real ==>
        forall i, j :: 0 <= i < j < |clips| ==> clips[i].start < clips[j].start
  {
    var duration := measured;
    if duration == 0.0 {
      duration := 600.0;
    }
    var c := clipDuration as real;
    if duration <= c {
      return [Moment(0.0, duration, 1.0, "Full video (short)")];
    }
    var available := duration - c;
    if available <= 0.0 {
      available := 0.0;
    }
    var step := if numClips > 0 then available / (numClips + 1) as real else 0.0;
    assert step == Spacing(duration, c, numClips);
    clips := [];
    var i := 0;
    while i < numClips
      invariant 0 <= i <= (if numClips > 0 then numClips else 0) && |clips| == i
      invariant forall k :: 0 <= k < i ==> clips[k] == Slot(step, c, k)
    {
      var start := step * (i + 1) as real;
      SlotInside(available, numClips, step, i);
      assert start == SlotStart(step, i);
      if start + c > duration {
        start := if duration - c > 0.0 then duration - c else 0.0;
      }
      clips := clips + [Moment(start, start + c, 0.8, SegmentReason(i + 1))];
      i := i + 1;
    }
    SlotsPlaced(duration, c, numClips, clips);
  }

  /** Clips laid out one `Spacing` apart are each one clip long, lie strictly
      inside the video and start in increasing order. */
  lemma SlotsPlaced(duration: real, c: real, count: int, clips: seq<Moment>)
    requires c < duration && |clips| == (if count > 0 then count else 0)
    requires forall k :: 0 <= k < |clips| ==> clips[k] == Slot(Spacing(duration, c, count), c, k)
    ensures forall k :: 0 <= k < |clips| ==>
      clips[k].end - clips[k].start == c && 0.0 < clips[k].start && clips[k].end < duration
    ensures forall k, j :: 0 <= k < j < |clips| ==> clips[k].start < clips[j].start
  {
    var step := Spacing(duration, c, count);
    forall k | 0 <= k < |clips|
      ensures clips[k].end - clips[k].start == c && 0.0 < clips[k].start && clips[k].end < duration
    {
      SlotInside(duration - c, count, step, k);
    }
    forall k, j | 0 <= k < j < |clips| ensures clips[k].start < clips[j].start {
      SlotInside(duration - c, count, step, k);
    }
  }

  // ---------------------------------------------------------------------
  // Hashtag clean-up

  /** `tag.lstrip('#')`: the suffix left after every leading `#`. */
  function StripHashes(tag: string): (r: string)
    ensures |r| <= |tag| && r == tag[|tag| - |r|..]
    ensures forall i :: 0 <= i < |tag| - |r| ==> tag[i] == '#'
    ensures r == [] || r[0] != '#'
    decreases |tag|
  {
    if tag != [] && tag[0] == '#' then StripHashes(tag[1..]) else tag
  }

  /** `f"#{tag.lstrip('#')}"`: always a well-formed tag, and the tag itself
      exactly when that is already well formed. */
  function NormalizeTag(tag: string): (r: string)
    ensures WellFormedTag(r)
    ensures r == tag <==> WellFormedTag(tag)
  {
    var r := "#" + StripHashes(tag);
    assert r[1..] == StripHashes(tag);
    if WellFormedTag(tag) then
      StripHashesStops(tag[1..]);
      assert tag == "#" + tag[1..];
      r
    else r
  }

  /** A hashtag as the service hands it out: one leading `#` and no more. */
  predicate WellFormedTag(tag: string) {
    |tag| >= 1 && tag[0] == '#' && (|tag| == 1 || tag[1] != '#')
  }

  /** Nothing to strip from a string that does not start with `#`. */
  lemma StripHashesStops(tag: string)
    requires tag == [] || tag[0] != '#'
    ensures StripHashes(tag) == tag
  {
  }

  /** Clean-up produces well-formed tags and leaves exactly the well-formed
      tags as they are, so applying it twice is applying it once. */
  lemma NormalizeTagFixesExactlyWellFormed(tag: string)
    ensures WellFormedTag(NormalizeTag(tag))
    ensures NormalizeTag(tag) == tag <==> WellFormedTag(tag)
    ensures NormalizeTag(NormalizeTag(tag)) == NormalizeTag(tag)
  {
  }

  /** The list comprehension over a list of strings. */
  function NormalizeTags(tags: seq<string>): (r: seq<string>)
    ensures |r| == |tags|
    ensures forall i :: 0 <= i < |tags| ==> r[i] == NormalizeTag(tags[i])
  {
    seq(|tags|, i requires 0 <= i < |tags| => NormalizeTag(tags[i]))
  }

  /** Every cleaned tag is well formed, and cleaning a cleaned list again
      gives it back. */
  lemma NormalizeTagsWellFormed(tags: seq<string>)
    ensures forall i :: 0 <= i < |tags| ==> WellFormedTag(NormalizeTags(tags)[i])
    ensures NormalizeTags(NormalizeTags(tags)) == NormalizeTags(tags)
  {
    forall i | 0 <= i < |tags| ensures WellFormedTag(NormalizeTags(tags)[i]) {
      NormalizeTagFixesExactlyWellFormed(tags[i]);
    }
    forall i | 0 <= i < |tags| ensures NormalizeTags(NormalizeTags(tags))[i] == NormalizeTags(tags)[i] {
      NormalizeTagFixesExactlyWellFormed(tags[i]);
    }
  }

  // ---------------------------------------------------------------------
  // Parsed model output

  /** A value `json.loads` can return. An object lists its members in order;
      its keys are distinct, as they are in a parsed dict. */
  datatype Json =
    | JNull
    | JBool(b: bool)
    | JNum(n: real)
    | JStr(s: string)
    | JArr(items: seq<Json>)
    | JObj(fields: seq<(string, Json)>)

  /** `d.get(key)`. */
  function Get(fields: seq<(string, Json)>, key: string): (r: Option<Json>)
    ensures r.Some? <==> exists i :: 0 <= i < |fields| && fields[i].0 == key
    ensures r.Some? ==> exists i :: 0 <= i < |fields| && fields[i] == (key, r.value)
  {
    if fields == [] then None
    else if fields[0].0 == key then Some(fields[0].1)
    else
      var r := Get(fields[1..], key);
      assert forall i :: 1 <= i < |fields| ==> fields[i] == fields[1..][i - 1];
      r
  }

  /** `d[key] = value` for a key that is present: the member keeps its place. */
  function Put(fields: seq<(string, Json)>, key: string, value: Json): (r: seq<(string, Json)>)
    ensures |r| == |fields|
    ensures forall i :: 0 <= i < |fields| ==> r[i].0 == fields[i].0
    ensures forall i :: 0 <= i < |fields| && fields[i].0 != key ==> r[i] == fields[i]
    ensures forall i :: 0 <= i < |fields| && fields[i].0 == key ==> r[i].1 == value
  {
    seq(|fields|, i requires 0 <= i < |fields| => if fields[i].0 == key then (key, value) else fields[i])
  }

  /** `analyze_transcript` after the model call. Without a model, or when
      the call or the parse fails, there are no clips. An object with a
      `clips` member gives that member, any other object is wrapped in a
      one-element list, and anything else is passed on as parsed: so the
      result is an object only when the model sent one under `clips`. */
  function AnalyzeTranscript(hasModel: bool, reply: Option<Json>): (r: Json)
    ensures !hasModel || reply.None? ==> r == JArr([])
    ensures hasModel && reply.Some? && reply.value.JObj? && Get(reply.value.fields, "clips").Some? ==>
      r == Get(reply.value.fields, "clips").value
    ensures r.JObj? ==>
      hasModel && reply.Some? && reply.value.JObj? && Get(reply.value.fields, "clips") == Some(r)
    ensures hasModel && reply.Some? && reply.value.JObj? && Get(reply.value.fields, "clips").None? ==>
      r == JArr([reply.value])
    ensures hasModel && reply.Some? && !reply.value.JObj? ==> r == reply.value
  {
    if !hasModel then JArr([])
    else match reply
      case None => JArr([])
      case Some(v) =>
        if v.JObj? then
          match Get(v.fields, "clips")
          case Some(clips) => clips
          case None => JArr([v])
        else v
  }

  // ---------------------------------------------------------------------
  // Viral content

  const Fire := "\U{1F525}"

  const NoModelTags: seq<string> := ["#viral", "#trending", "#fyp", "#foryou", "#explore"]

  const ErrorTags: seq<string> := ["#viral", "#trending", "#fyp", "#foryou", "#explore", "#mustwatch"]

  function Strs(xs: seq<string>): (r: seq<Json>)
    ensures |r| == |xs| && forall i :: 0 <= i < |xs| ==> r[i] == JStr(xs[i])
  {
    seq(|xs|, i requires 0 <= i < |xs| => JStr(xs[i]))
  }

  /** `a or b` on strings. */
  function OrElse(a: string, b: string): string {
    if a != "" then a else b
  }

  function Content(title: string, description: string, hashtags: seq<string>,
                   captionInstagram: string, captionYoutube: string): Json {
    JObj([("title", JStr(title)), ("description", JStr(description)), ("hashtags", JArr(Strs(hashtags))),
          ("caption_instagram", JStr(captionInstagram)), ("caption_youtube", JStr(captionYoutube))])
  }

  /** The content handed out when there is no model: the title is the
      clip's title, or the fixed teaser when that is empty, and the hashtags
      are the five fixed ones. */
  function NoModelContent(clipTitle: string): (r: Json)
    ensures r.JObj?
    ensures Get(r.fields, "title") == Some(JStr(if clipTitle == "" then "Check this out! " + Fire else clipTitle))
    ensures Get(r.fields, "hashtags") == Some(JArr(Strs(NoModelTags)))
  {
    ContentMembers(OrElse(clipTitle, "Check this out! " + Fire), "Amazing content you don't want to miss!",
                   NoModelTags, clipTitle + "\n\n#viral #trending #fyp #foryou #explore", OrElse(clipTitle, "Check this out!"));
    Content(OrElse(clipTitle, "Check this out! " + Fire),
            "Amazing content you don't want to miss!",
            NoModelTags,
            clipTitle + "\n\n#viral #trending #fyp #foryou #explore",
            OrElse(clipTitle, "Check this out!"))
  }

  /** The content handed out when the model call, the parse or the hashtag
      clean-up raises: the clip's title and reason, each with its fixed
      stand-in when empty, and the six fixed hashtags. */
  function ErrorContent(clipTitle: string, clipReason: string): (r: Json)
    ensures r.JObj?
    ensures Get(r.fields, "title") == Some(JStr(if clipTitle == "" then "Must Watch! " + Fire else clipTitle))
    ensures Get(r.fields, "description") == Some(JStr(if clipReason == "" then "You need to see this!" else clipReason))
    ensures Get(r.fields, "hashtags") == Some(JArr(Strs(ErrorTags)))
  {
    ContentMembers(OrElse(clipTitle, "Must Watch! " + Fire), OrElse(clipReason, "You need to see this!"),
                   ErrorTags, clipTitle + "\n\n#viral #trending #fyp", OrElse(clipTitle, "Check this out!"));
    Content(OrElse(clipTitle, "Must Watch! " + Fire),
            OrElse(clipReason, "You need to see this!"),
            ErrorTags,
            clipTitle + "\n\n#viral #trending #fyp",
            OrElse(clipTitle, "Check this out!"))
  }

  /** Iterating over the `hashtags` member and cleaning each item: a list
      of strings gives its items, a string its characters, an object its
      keys; a list holding something other than a string, or a value that
      cannot be iterated, raises (None). */
  function CleanHashtags(v: Json): (r: Option<seq<string>>)
    ensures r.Some? ==> forall i :: 0 <= i < |r.value| ==> WellFormedTag(r.value[i])
    ensures v.JArr? ==> (r.Some? <==> forall i :: 0 <= i < |v.items| ==> v.items[i].JStr?)
    ensures v.JArr? && r.Some? ==>
      |r.value| == |v.items| && forall i :: 0 <= i < |v.items| ==> r.value[i] == NormalizeTag(v.items[i].s)
    ensures v.JStr? ==>
      r.Some? && |r.value| == |v.s| && forall i :: 0 <= i < |v.s| ==> r.value[i] == NormalizeTag([v.s[i]])
    ensures v.JObj? ==>
      r.Some? && |r.value| == |v.fields| && forall i :: 0 <= i < |v.fields| ==> r.value[i] == NormalizeTag(v.fields[i].0)
    ensures v.JNull? || v.JBool? || v.JNum? ==> r.None?
  {
    var tags: Option<seq<string>> :=
      match v
      case JArr(items) =>
        if forall i :: 0 <= i < |items| ==> items[i].JStr? then
          Some(seq(|items|, i requires 0 <= i < |items| && items[i].JStr? => items[i].s))
        else None
      case JStr(s) => Some(seq(|s|, i requires 0 <= i < |s| => [s[i]]))
      case JObj(fields) => Some(seq(|fields|, i requires 0 <= i < |fields| => fields[i].0))
      case _ => None;
    if tags.None? then None
    else
      NormalizeTagsWellFormed(tags.value);
      Some(NormalizeTags(tags.value))
  }

  /** `"hashtags" in result`, or None when `in` raises on that value: a
      key of an object, an item of a list, a substring of a string; a null,
      boolean or number cannot be searched. */
  function MentionsHashtags(v: Json): (r: Option<bool>)
    ensures r.None? <==> v.JNull? || v.JBool? || v.JNum?
    ensures v.JObj? ==> (r == Some(true) <==> exists i :: 0 <= i < |v.fields| && v.fields[i].0 == "hashtags")
    ensures v.JArr? ==> (r == Some(true) <==> exists i :: 0 <= i < |v.items| && v.items[i] == JStr("hashtags"))
    ensures v.JStr? ==> (r == Some(true) <==> Contains(v.s, "hashtags"))
  {
    match v
    case JObj(fields) => Some(Get(fields, "hashtags").Some?)
    case JArr(items) => Some(JStr("hashtags") in items)
    case JStr(s) => Some(Contains(s, "hashtags"))
    case _ => None
  }

  /** `generate_viral_content` after the model call. Without a model it is
      the fixed content; a failed call or parse gives the error content. A
      parsed object with a `hashtags` member comes back with that member
      cleaned in place, or as the error content when cleaning raises; one
      without comes back as parsed. A list or string that does not mention
      `hashtags` comes back as parsed; one that does, and any other value,
      raises on the way and gives the error content. */
  function GenerateViralContent(hasModel: bool, clipTitle: string, clipReason: string,
                                reply: Option<Json>): (r: Json)
    ensures !hasModel ==> r == NoModelContent(clipTitle)
    ensures hasModel && reply.None? ==> r == ErrorContent(clipTitle, clipReason)
    ensures hasModel && reply.Some? && reply.value.JObj? && Get(reply.value.fields, "hashtags").None? ==>
      r == reply.value
    ensures hasModel && reply.Some? && reply.value.JObj? && Get(reply.value.fields, "hashtags").Some? ==>
      var tags := CleanHashtags(Get(reply.value.fields, "hashtags").value);
      (tags.None? ==> r == ErrorContent(clipTitle, clipReason)) &&
      (tags.Some? ==> r.JObj? && Get(r.fields, "hashtags") == Some(JArr(Strs(tags.value))) &&
                      |r.fields| == |reply.value.fields|)
    ensures hasModel && reply.Some? && !reply.value.JObj? ==>
      r == if MentionsHashtags(reply.value) == Some(false) then reply.value else ErrorContent(clipTitle, clipReason)
  {
    if !hasModel then NoModelContent(clipTitle)
    else if reply.None? then ErrorContent(clipTitle, clipReason)
    else
      var v := reply.value;
      match MentionsHashtags(v)
      case None => ErrorContent(clipTitle, clipReason)
      case Some(false) => v
      case Some(true) =>
        if !v.JObj? then ErrorContent(clipTitle, clipReason)
        else
          match CleanHashtags(Get(v.fields, "hashtags").value)
          case None => ErrorContent(clipTitle, clipReason)
          case Some(tags) =>
            GetAfterPut(v.fields, "hashtags", JArr(Strs(tags)));
            JObj(Put(v.fields, "hashtags", JArr(Strs(tags))))
  }

  /** The title and hashtags members of a fixed content object. */
  lemma ContentMembers(title: string, description: string, hashtags: seq<string>,
                       captionInstagram: string, captionYoutube: string)
    ensures var f := Content(title, description, hashtags, captionInstagram, captionYoutube).fields;
      Get(f, "title") == Some(JStr(title)) && Get(f, "description") == Some(JStr(description)) &&
      Get(f, "hashtags") == Some(JArr(Strs(hashtags)))
  {
    var f := Content(title, description, hashtags, captionInstagram, captionYoutube).fields;
    assert |f[0].0| != |"description"|;
    assert Get(f, "description") == Get(f[1..], "description");
    assert |f[0].0| != |"hashtags"| && |f[1].0| != |"hashtags"|;
    assert Get(f, "hashtags") == Get(f[1..], "hashtags");
    assert f[1..][0] == f[1] && f[1..][1..] == f[2..];
    assert Get(f[1..], "hashtags") == Get(f[2..], "hashtags");
    assert f[2..][0] == ("hashtags", JArr(Strs(hashtags)));
  }

  /** The tags of the two fixed contents are well formed. */
  lemma FixedTagsWellFormed()
    ensures forall i :: 0 <= i < |NoModelTags| ==> WellFormedTag(NoModelTags[i])
    ensures forall i :: 0 <= i < |ErrorTags| ==> WellFormedTag(ErrorTags[i])
  {
  }

  /** Putting into a member that is present replaces what `Get` finds. */
  lemma GetAfterPut(fields: seq<(string, Json)>, key: string, value: Json)
    requires Get(fields, key).Some?
    ensures Get(Put(fields, key, value), key) == Some(value)
  {
    var r := Put(fields, key, value);
    var i :| 0 <= i < |fields| && fields[i].0 == key;
    assert r[i].0 == key;
  }

  /** Putting into one member leaves what `Get` finds under any other key. */
  lemma {:induction false} GetAfterPutOther(fields: seq<(string, Json)>, key: string, value: Json, other: string)
    requires other != key
    ensures Get(Put(fields, key, value), other) == Get(fields, other)
    decreases |fields|
  {
    if fields != [] {
      var r := Put(fields, key, value);
      assert r[1..] == Put(fields[1..], key, value);
      GetAfterPutOther(fields[1..], key, value, other);
    }
  }

  /** When the model answers with an object that has a `hashtags` member
      the clean-up can handle, only that member changes: it becomes the
      cleaned tags, and every other member stays as parsed. */
  lemma ModelReplyKeepsOtherMembers(clipTitle: string, clipReason: string, fields: seq<(string, Json)>)
    requires Get(fields, "hashtags").Some? && CleanHashtags(Get(fields, "hashtags").value).Some?
    ensures var r := GenerateViralContent(true, clipTitle, clipReason, Some(JObj(fields)));
      r.JObj? &&
      Get(r.fields, "hashtags") == Some(JArr(Strs(CleanHashtags(Get(fields, "hashtags").value).value))) &&
      forall k :: k != "hashtags" ==> Get(r.fields, k) == Get(fields, k)
  {
    var tags := CleanHashtags(Get(fields, "hashtags").value).value;
    var r := GenerateViralContent(true, clipTitle, clipReason, Some(JObj(fields)));
    assert r == JObj(Put(fields, "hashtags", JArr(Strs(tags))));
    forall k | k != "hashtags" ensures Get(r.fields, k) == Get(fields, k) {
      GetAfterPutOther(fields, "hashtags", JArr(Strs(tags)), k);
    }
  }

  /** The fixed contents carry well-formed hashtags. */
  lemma FixedContentTagsWellFormed(title: string, description: string, hashtags: seq<string>,
                                   captionInstagram: string, captionYoutube: string)
    requires hashtags == NoModelTags || hashtags == ErrorTags
    ensures var r := Content(title, description, hashtags, captionInstagram, captionYoutube);
      Get(r.fields, "hashtags").Some? &&
      var h := Get(r.fields, "hashtags").value;
      h.JArr? && forall i :: 0 <= i < |h.items| ==> h.items[i].JStr? && WellFormedTag(h.items[i].s)
  {
    ContentMembers(title, description, hashtags, captionInstagram, captionYoutube);
    FixedTagsWellFormed();
  }

  /** Whatever the model answers, when the result is an object that has a
      `hashtags` member it is a list of well-formed tags. */
  lemma GeneratedHashtagsWellFormed(hasModel: bool, clipTitle: string, clipReason: string, reply: Option<Json>)
    ensures var r := GenerateViralContent(hasModel, clipTitle, clipReason, reply);
      r.JObj? && Get(r.fields, "hashtags").Some? ==>
        var h := Get(r.fields, "hashtags").value;
        h.JArr? && forall i :: 0 <= i < |h.items| ==> h.items[i].JStr? && WellFormedTag(h.items[i].s)
  {
    var r := GenerateViralContent(hasModel, clipTitle, clipReason, reply);
    if !hasModel {
      FixedContentTagsWellFormed(OrElse(clipTitle, "Check this out! " + Fire),
        "Amazing content you don't want to miss!", NoModelTags,
        clipTitle + "\n\n#viral #trending #fyp #foryou #explore", OrElse(clipTitle, "Check this out!"));
      return;
    }
    var error := ErrorContent(clipTitle, clipReason);
    FixedContentTagsWellFormed(OrElse(clipTitle, "Must Watch! " + Fire),
      OrElse(clipReason, "You need to see this!"), ErrorTags,
      clipTitle + "\n\n#viral #trending #fyp", OrElse(clipTitle, "Check this out!"));
    if r == error || reply.None? {
      return;
    }
    var v := reply.value;
    if v.JObj? && Get(v.fields, "hashtags").Some? {
      var tags := CleanHashtags(Get(v.fields, "hashtags").value);
      if tags.Some? {
        assert r == JObj(Put(v.fields, "hashtags", JArr(Strs(tags.value))));
        GetAfterPut(v.fields, "hashtags", JArr(Strs(tags.value)));
      }
    }
  }
}
