/** The transcriber's local path: the speech model's segments and words are
    reshaped into the transcript the rest of the backend reads, and the
    Roman-Telugu pass rewrites every text of a Telugu transcript. The speech
    model and the transliteration are parameters. */
module Transcription {
  import opened Basics

  /** A timed word, as the model reports it and as the transcript keeps it. */
  datatype Word = Word(word: string, start: real, end: real)

  /** A segment as the model reports it; its words may be missing. */
  datatype RawSegment = RawSegment(start: real, end: real, text: string, words: Option<seq<Word>>)

  datatype Segment = Segment(start: real, end: real, text: string, words: seq<Word>)

  /** The transcript: the full text, the segments, the language the model
      detected and whether the Roman-Telugu pass has run. */
  datatype Transcript = Transcript(text: string, segments: seq<Segment>, detectedLanguage: string, romanTelugu: bool)

  /** The language handed to the speech model: only a non-empty request is
      passed on; otherwise the model detects the language itself. */
  function LanguageArgument(language: Option<string>): (arg: Option<string>)
    ensures arg.Some? <==> language.Some? && language.value != ""
    ensures arg.Some? ==> arg == language
  {
    if language.Some? && language.value != "" then language else None
  }

  function Texts(raw: seq<RawSegment>): (texts: seq<string>)
    ensures |texts| == |raw| && forall i :: 0 <= i < |raw| ==> texts[i] == raw[i].text
  {
    seq(|raw|, i requires 0 <= i < |raw| => raw[i].text)
  }

  /** The reshaping loop of `transcribe_audio`: one segment per model
      segment, in order, with its times and text, and its words (none when
      the model gave none); the full text is the segment texts joined by
      single spaces. */
  method FormatLocalTranscript(raw: seq<RawSegment>, detected: string) returns (t: Transcript)
    ensures |t.segments| == |raw|
    ensures forall i :: 0 <= i < |raw| ==>
      t.segments[i].start == raw[i].start && t.segments[i].end == raw[i].end &&
      t.segments[i].text == raw[i].text && t.segments[i].words == raw[i].words.GetOr([])
    ensures t.text == Join(Texts(raw), ' ')
    ensures t.detectedLanguage == detected && !t.romanTelugu
  {
    var formatted: seq<Segment> := [];
    var fullText: seq<string> := [];
    var i := 0;
    while i < |raw|
      invariant 0 <= i <= |raw| && |formatted| == i
      invariant forall k :: 0 <= k < i ==>
        formatted[k] == Segment(raw[k].start, raw[k].end, raw[k].text, raw[k].words.GetOr([]))
      invariant fullText == Texts(raw)[..i]
    {
      var segment := raw[i];
      var segWords: seq<Word> := [];
      if segment.words.Some? && segment.words.value != [] {
        var words := segment.words.value;
        var j := 0;
        while j < |words|
          invariant 0 <= j <= |words| && segWords == words[..j]
        {
          var w := words[j];
          segWords := segWords + [Word(w.word, w.start, w.end)];
          j := j + 1;
        }
        assert words[..|words|] == words;
      }
      formatted := formatted + [Segment(segment.start, segment.end, segment.text, segWords)];
      fullText := fullText + [segment.text];
      i := i + 1;
    }
    assert Texts(raw)[..|raw|] == Texts(raw);
    t := Transcript(Join(fullText, ' '), formatted, detected, false);
  }

  /** Every segment's text can be found in the full text. */
  lemma FullTextHasEverySegment(raw: seq<RawSegment>, i: nat)
    requires i < |raw|
    ensures Contains(Join(Texts(raw), ' '), raw[i].text)
  {
    JoinContainsParts(Texts(raw), ' ', i);
  }

  /** The pass runs when the model detected Telugu or Telugu was asked for. */
  predicate IsTelugu(result: Transcript, language: Option<string>) {
    result.detectedLanguage == "te" || language == Some("te")
  }

  /** `after` is `before` with its text and every word transliterated, and
      all times kept. */
  predicate Romanized(before: Segment, after: Segment, translit: string -> string) {
    after.start == before.start && after.end == before.end &&
    after.text == translit(before.text) && |after.words| == |before.words| &&
    forall j :: 0 <= j < |before.words| ==>
      after.words[j] == Word(translit(before.words[j].word), before.words[j].start, before.words[j].end)
  }

  /** The rewrite of `transcribe_with_roman_telugu`. A transcript that is
      not Telugu comes back as it was. Otherwise the full text, every
      segment text and every word are transliterated, counts and times are
      kept, and the transcript is marked as Roman Telugu. */
  method RomanizeTelugu(result: Transcript, language: Option<string>, translit: string -> string)
    returns (r: Transcript)
    ensures !IsTelugu(result, language) ==> r == result
    ensures IsTelugu(result, language) ==>
      r.text == translit(result.text) && r.detectedLanguage == result.detectedLanguage && r.romanTelugu &&
      |r.segments| == |result.segments| &&
      forall i :: 0 <= i < |result.segments| ==> Romanized(result.segments[i], r.segments[i], translit)
  {
    if !IsTelugu(result, language) {
      return result;
    }
    r := result.(text := translit(result.text));
    var i := 0;
    while i < |r.segments|
      invariant 0 <= i <= |r.segments| == |result.segments|
      invariant r.text == translit(result.text) && r.detectedLanguage == result.detectedLanguage
      invariant forall k :: 0 <= k < i ==> Romanized(result.segments[k], r.segments[k], translit)
      invariant forall k :: i <= k < |r.segments| ==> r.segments[k] == result.segments[k]
    {
      var segment := r.segments[i];
      var words := segment.words;
      var j := 0;
      while j < |words|
        invariant 0 <= j <= |words| == |segment.words|
        invariant forall k :: 0 <= k < j ==>
          words[k] == Word(translit(segment.words[k].word), segment.words[k].start, segment.words[k].end)
        invariant forall k :: j <= k < |words| ==> words[k] == segment.words[k]
      {
        words := words[j := words[j].(word := translit(words[j].word))];
        j := j + 1;
      }
      r := r.(segments := r.segments[i := segment.(text := translit(segment.text), words := words)]);
      i := i + 1;
    }
    r := r.(romanTelugu := true);
  }

  /** `transcribe_with_roman_telugu` over the local path: the model is asked
      with the language argument, its output is reshaped, and the pass runs
      when the model detected Telugu or Telugu was asked for. */
  method TranscribeWithRomanTelugu(language: Option<string>,
                                   recognise: Option<string> -> (seq<RawSegment>, string),
                                   translit: string -> string)
    returns (r: Transcript)
    ensures var (raw, detected) := recognise(LanguageArgument(language));
      var telugu := detected == "te" || language == Some("te");
      r.detectedLanguage == detected && r.romanTelugu == telugu && |r.segments| == |raw| &&
      r.text == (if telugu then translit(Join(Texts(raw), ' ')) else Join(Texts(raw), ' ')) &&
      forall i :: 0 <= i < |raw| ==>
        r.segments[i].start == raw[i].start && r.segments[i].end == raw[i].end &&
        r.segments[i].text == (if telugu then translit(raw[i].text) else raw[i].text) &&
        |r.segments[i].words| == |raw[i].words.GetOr([])| &&
        forall j :: 0 <= j < |raw[i].words.GetOr([])| ==>
          var w := raw[i].words.GetOr([])[j];
          r.segments[i].words[j] == if telugu then Word(translit(w.word), w.start, w.end) else w
  {
    var (raw, detected) := recognise(LanguageArgument(language));
    var formatted := FormatLocalTranscript(raw, detected);
    r := RomanizeTelugu(formatted, language, translit);
  }
}
