/** The transcription service (backend/app/services/transcription_service.py): video ids
    are cut out of YouTube links, caption fragments are joined into one transcript, and
    failures of the caption provider or of the speech-to-text client are wrapped into
    user-facing messages. The caption provider and the speech-to-text client are outside
    the model; each enters as a function from its input to its outcome. */
module Transcription {
  import opened Wrappers
  import opened Strings
  import Config
  import Nlp

  // ---------------------------------------------------------------------------
  // Video ids

  const WatchMarker: string := "v="
  const ShortMarker: string := "youtu.be/"
  const InvalidUrl: string := "Invalid YouTube URL"

  /** Python's `s.split(sep)[0]` and `s.split(sep)[1]` on a non-empty separator. */
  function Before(s: string, sep: string): string
    requires |sep| > 0
  {
    Split(s, sep)[0]
  }

  /** `e` is where an id that starts `s` ends: at the first `stop` character or the first
      occurrence of `marker`, whichever comes first, or at the end of `s`. */
  predicate SegmentEnd(s: string, e: nat, stop: char, marker: string)
  {
    && e <= |s|
    && (forall j :: 0 <= j < e ==> s[j] != stop && !OccursAt(s, marker, j))
    && (e == |s| || s[e] == stop || OccursAt(s, marker, e))
  }

  /** The end of an id is determined by the text it starts. */
  lemma SegmentEndUnique(s: string, e1: nat, e2: nat, stop: char, marker: string)
    requires SegmentEnd(s, e1, stop, marker) && SegmentEnd(s, e2, stop, marker)
    ensures e1 == e2
  {
  }

  /** Cutting at the first `marker` and then at the first `stop` ends the id at `SegmentEnd`. */
  lemma CutSegment(s: string, stop: char, marker: string)
    requires |marker| > 0
    ensures var id := Before(Before(s, marker), [stop]);
            StartsWith(s, id) && SegmentEnd(s, |id|, stop, marker)
  {
    var p := Before(s, marker);
    var id := Before(p, [stop]);
    assert s[..|p|] == p;
    assert p[..|id|] == id;
    forall j | 0 <= j < |id|
      ensures s[j] != stop
    {
      assert !OccursAt(p, [stop], j);
      assert p[j..j + 1] == [p[j]];
    }
    if |id| < |p| {
      assert OccursAt(p, [stop], |id|);
      assert p[|id|..|id| + 1] == [stop];
    }
  }

  /** `_extract_video_id`. A link containing "v=" anywhere yields the text after its first
      "v=", up to the next "&" or "v="; otherwise a link containing "youtu.be/" yields the
      text after its first "youtu.be/", up to the next "?" or "youtu.be/"; any other link
      is rejected. The id may be empty. */
  function ExtractVideoId(url: string): (r: Result<string>)
    ensures Contains(url, WatchMarker) ==>
              var k := Find(url, WatchMarker).value;
              var rest := url[k + |WatchMarker|..];
              r.Ok? && StartsWith(rest, r.value) && SegmentEnd(rest, |r.value|, '&', WatchMarker)
    ensures !Contains(url, WatchMarker) && Contains(url, ShortMarker) ==>
              var k := Find(url, ShortMarker).value;
              var rest := url[k + |ShortMarker|..];
              r.Ok? && StartsWith(rest, r.value) && SegmentEnd(rest, |r.value|, '?', ShortMarker)
    ensures !Contains(url, WatchMarker) && !Contains(url, ShortMarker) ==> r == Err(InvalidUrl)
  {
    if Contains(url, WatchMarker) then
      var k := Find(url, WatchMarker).value;
      CutSegment(url[k + |WatchMarker|..], '&', WatchMarker);
      Ok(Before(Split(url, WatchMarker)[1], "&"))
    else if Contains(url, ShortMarker) then
      var k := Find(url, ShortMarker).value;
      CutSegment(url[k + |ShortMarker|..], '?', ShortMarker);
      Ok(Before(Split(url, ShortMarker)[1], "?"))
    else
      Err(InvalidUrl)
  }

  /** An id followed by nothing, or by a `stop` character and anything, ends where it should. */
  lemma IdThenTail(id: string, tail: string, stop: char, marker: string)
    requires |marker| > 0 && stop !in marker
    requires stop !in id && !Contains(id, marker)
    requires tail == [] || tail[0] == stop
    ensures SegmentEnd(id + tail, |id|, stop, marker)
  {
    var s := id + tail;
    forall j | 0 <= j < |id|
      ensures s[j] != stop && !OccursAt(s, marker, j)
    {
      assert s[j] == id[j];
      if j + |marker| <= |id| {
        assert !OccursAt(id, marker, j);
        assert s[j..j + |marker|] == id[j..j + |marker|];
      } else if j + |marker| <= |s| {
        assert s[j..j + |marker|][|id| - j] == s[|id|] == stop;
      }
    }
  }

  /** After the first `marker` of `prefix + marker + rest`, where `prefix` has none,
      comes `rest`. */
  lemma MarkerFound(prefix: string, marker: string, rest: string)
    requires |marker| > 0 && marker[0] !in marker[1..]
    requires !Contains(prefix, marker)
    ensures Find(prefix + marker + rest, marker) == Some(|prefix|)
    ensures (prefix + marker + rest)[|prefix| + |marker|..] == rest
  {
    FindAfterPrefix(prefix, marker, rest);
  }

  /** A watch link gives back its id: `prefix + "v=" + id + tail`, where the prefix has
      no "v=", the id has neither "&" nor "v=", and the tail is empty or starts a further
      query parameter with "&". */
  lemma WatchUrlRoundTrip(prefix: string, id: string, tail: string)
    requires !Contains(prefix, WatchMarker)
    requires '&' !in id && !Contains(id, WatchMarker)
    requires tail == [] || tail[0] == '&'
    ensures ExtractVideoId(prefix + WatchMarker + id + tail) == Ok(id)
  {
    var url := prefix + WatchMarker + id + tail;
    var rest := id + tail;
    assert url == prefix + WatchMarker + rest;
    MarkerFound(prefix, WatchMarker, rest);
    IdThenTail(id, tail, '&', WatchMarker);
    var r := ExtractVideoId(url).value;
    SegmentEndUnique(rest, |r|, |id|, '&', WatchMarker);
    assert rest[..|id|] == id;
  }

  /** A short link gives back its id: `prefix + "youtu.be/" + id + tail`, where the whole
      link has no "v=", the prefix has no "youtu.be/", the id has neither "?" nor
      "youtu.be/", and the tail is empty or starts the query string with "?". */
  lemma ShortUrlRoundTrip(prefix: string, id: string, tail: string)
    requires !Contains(prefix + ShortMarker + id + tail, WatchMarker)
    requires !Contains(prefix, ShortMarker)
    requires '?' !in id && !Contains(id, ShortMarker)
    requires tail == [] || tail[0] == '?'
    ensures ExtractVideoId(prefix + ShortMarker + id + tail) == Ok(id)
  {
    var url := prefix + ShortMarker + id + tail;
    var rest := id + tail;
    assert url == prefix + ShortMarker + rest;
    assert '?' !in ShortMarker;
    assert ShortMarker[0] !in ShortMarker[1..];
    MarkerFound(prefix, ShortMarker, rest);
    IdThenTail(id, tail, '?', ShortMarker);
    var r := ExtractVideoId(url).value;
    SegmentEndUnique(rest, |r|, |id|, '?', ShortMarker);
    assert rest[..|id|] == id;
  }

  // ---------------------------------------------------------------------------
  // Metadata

  /** `_get_youtube_metadata`'s dictionary: the basic video information, or the error. */
  datatype Metadata = VideoInfo(title: string, url: string, videoId: string) | MetadataError(error: string)

  const TitlePrefix: string := "Video: "

  /** `_get_youtube_metadata`: never fails; a link without an id gives an error entry. */
  function GetYoutubeMetadata(url: string): (m: Metadata)
    ensures m.VideoInfo? <==> ExtractVideoId(url).Ok?
    ensures m.VideoInfo? ==> m.url == url && m.videoId == ExtractVideoId(url).value
                             && m.title == TitlePrefix + m.videoId
    ensures m.MetadataError? ==> m.error == InvalidUrl
  {
    match ExtractVideoId(url)
    case Ok(id) => VideoInfo(TitlePrefix + id, url, id)
    case Err(e) => MetadataError(e)
  }

  /** The title names the id, so the id can be read back from it. */
  lemma TitleNamesId(url: string)
    requires GetYoutubeMetadata(url).VideoInfo?
    ensures var m := GetYoutubeMetadata(url);
            StartsWith(m.title, TitlePrefix) && m.title[|TitlePrefix|..] == m.videoId
  {
    var m := GetYoutubeMetadata(url);
    assert m.title[..|TitlePrefix|] == TitlePrefix;
  }

  // ---------------------------------------------------------------------------
  // YouTube transcription

  /** One caption snippet; only its text is read. */
  datatype Fragment = Fragment(text: string)

  /** What asking the caption provider for a video's English captions, under the 30-second
      deadline, can give: the snippets, the deadline passing, or the provider's error. */
  datatype FetchOutcome = Fragments(items: seq<Fragment>) | TimedOut | ProviderError(message: string)

  function Texts(items: seq<Fragment>): (texts: seq<string>)
    ensures |texts| == |items|
    ensures forall i :: 0 <= i < |items| ==> texts[i] == items[i].text
  {
    seq(|items|, i requires 0 <= i < |items| => items[i].text)
  }

  /** `" ".join(item['text'] for item in transcript_list)`: the snippets' texts in order,
      one space between neighbours, nothing else; so its words are the snippets' words. */
  function JoinCaptions(items: seq<Fragment>): (transcript: string)
    ensures items == [] ==> transcript == ""
    ensures |items| > 0 ==> |transcript| == TotalLength(Texts(items)) + |items| - 1
    ensures forall i :: 0 <= i < |items| ==> PieceAt(transcript, Texts(items), i, ' ')
    ensures Words(transcript) == Nlp.FlatWords(Texts(items))
    ensures WordCount(transcript) == Nlp.WordSum(Texts(items))
  {
    JoinLayout(Texts(items), ' ');
    Nlp.JoinedWords(Texts(items));
    Join(Texts(items), " ")
  }

  /** When no snippet holds a space, splitting the transcript at spaces gives the snippets back. */
  lemma CaptionsSplitBack(items: seq<Fragment>)
    requires |items| >= 1
    requires forall i :: 0 <= i < |items| ==> ' ' !in items[i].text
    ensures Split(JoinCaptions(items), " ") == Texts(items)
  {
    SplitJoin(Texts(items), ' ');
  }

  const YoutubeFailed: string := "YouTube transcription failed: "
  const TimeoutMessage: string := "Request timed out. The YouTube transcript API took too long to respond."
  const UnavailablePrefix: string := "Transcript not available: "
  const UnavailableSuffix: string := ". This video may not have English captions."

  /** The transcript and the metadata returned on success. */
  datatype VideoTranscript = VideoTranscript(transcript: string, metadata: Metadata)

  /** `transcribe_youtube_video`, with the caption provider as `captions`. Every failure
      comes back under "YouTube transcription failed: "; the provider is asked only for
      the extracted id. */
  function TranscribeYoutubeVideo(url: string, captions: string -> FetchOutcome): (r: Result<VideoTranscript>)
    ensures ExtractVideoId(url).Err? ==> r == Err(YoutubeFailed + InvalidUrl)
    ensures ExtractVideoId(url).Ok? ==>
              var id := ExtractVideoId(url).value;
              match captions(id)
              case Fragments(items) =>
                r.Ok? && r.value.transcript == JoinCaptions(items)
                && r.value.metadata == VideoInfo(TitlePrefix + id, url, id)
              case TimedOut => r == Err(YoutubeFailed + TimeoutMessage)
              case ProviderError(m) => r == Err(YoutubeFailed + UnavailablePrefix + m + UnavailableSuffix)
  {
    match ExtractVideoId(url)
    case Err(e) => Err(YoutubeFailed + e)
    case Ok(id) =>
      match captions(id)
      case Fragments(items) => Ok(VideoTranscript(JoinCaptions(items), GetYoutubeMetadata(url)))
      case TimedOut => Err(YoutubeFailed + TimeoutMessage)
      case ProviderError(m) => Err(YoutubeFailed + UnavailablePrefix + m + UnavailableSuffix)
  }

  /** Every failure message starts with the YouTube prefix. */
  lemma YoutubeErrorsArePrefixed(url: string, captions: string -> FetchOutcome)
    ensures var r := TranscribeYoutubeVideo(url, captions);
            r.Err? ==> StartsWith(r.error, YoutubeFailed)
  {
    match ExtractVideoId(url)
    case Err(e) => StartsWithConcat(YoutubeFailed, e);
    case Ok(id) =>
      match captions(id)
      case Fragments(_) =>
      case TimedOut => StartsWithConcat(YoutubeFailed, TimeoutMessage);
      case ProviderError(m) => StartsWithConcat(YoutubeFailed, UnavailablePrefix + m + UnavailableSuffix);
  }

  /** Only the captions of the extracted id matter, and a link without an id never reaches
      the provider at all. */
  lemma CaptionsOnlyForId(url: string, f: string -> FetchOutcome, g: string -> FetchOutcome)
    requires ExtractVideoId(url).Err? || f(ExtractVideoId(url).value) == g(ExtractVideoId(url).value)
    ensures TranscribeYoutubeVideo(url, f) == TranscribeYoutubeVideo(url, g)
  {
  }

  /** On success, the metadata names the video whose captions were fetched. */
  lemma TranscriptMetadataNamesVideo(url: string, captions: string -> FetchOutcome)
    requires TranscribeYoutubeVideo(url, captions).Ok?
    ensures var m := TranscribeYoutubeVideo(url, captions).value.metadata;
            m.VideoInfo? && m.url == url && captions(m.videoId).Fragments?
  {
  }

  // ---------------------------------------------------------------------------
  // Audio transcription

  /** The speech-to-text client, present only when an API key was configured. */
  datatype TranscriptionService = TranscriptionService(client: Option<string>)

  /** `TranscriptionService.__init__`: an empty key means no client. */
  function NewService(apiKey: string): (service: TranscriptionService)
    ensures service.client.Some? <==> apiKey != ""
    ensures service.client.Some? ==> service.client.value == apiKey
  {
    if apiKey != "" then TranscriptionService(Some(apiKey)) else TranscriptionService(None)
  }

  /** With the default settings no client exists. */
  lemma DefaultServiceHasNoClient()
    ensures NewService(Config.OpenAiApiKey).client.None?
  {
  }

  const NotConfigured: string := "OpenAI API key is not configured. " + "Please add OPENAI_API_KEY to environment variables."
  const AudioFailed: string := "Transcription failed: "

  /** `transcribe_audio_file`, with opening the file and the speech-to-text request as
      `whisper`. Without a client it fails before touching the file; otherwise the
      client's text is returned and its failure is wrapped under "Transcription failed: ". */
  function TranscribeAudioFile(service: TranscriptionService, filePath: string, whisper: string -> Result<string>): (r: Result<string>)
    ensures service.client.None? ==> r == Err(NotConfigured)
    ensures service.client.Some? ==> (r.Ok? <==> whisper(filePath).Ok?)
    ensures service.client.Some? && r.Ok? ==> r.value == whisper(filePath).value
    ensures service.client.Some? && r.Err? ==> r.error == AudioFailed + whisper(filePath).error
  {
    if service.client.None? then Err(NotConfigured)
    else
      match whisper(filePath)
      case Ok(text) => Ok(text)
      case Err(e) => Err(AudioFailed + e)
  }

  /** Without a client the outcome does not depend on the speech-to-text call. */
  lemma UnconfiguredIgnoresWhisper(filePath: string, f: string -> Result<string>, g: string -> Result<string>)
    ensures TranscribeAudioFile(NewService(""), filePath, f) == TranscribeAudioFile(NewService(""), filePath, g)
  {
  }

  /** The missing-key error is raised outside the wrapping and so is never mistaken for a
      failed transcription. */
  lemma MissingKeyIsNotATranscriptionFailure(service: TranscriptionService, filePath: string, whisper: string -> Result<string>)
    requires TranscribeAudioFile(service, filePath, whisper).Err?
    ensures service.client.None? <==> !StartsWith(TranscribeAudioFile(service, filePath, whisper).error, AudioFailed)
  {
    var e := TranscribeAudioFile(service, filePath, whisper).error;
    if service.client.Some? {
      assert e[..|AudioFailed|] == AudioFailed;
    } else {
      assert e == NotConfigured && e[0] == 'O';
      assert AudioFailed[0] == 'T';
      assert e[..|AudioFailed|][0] == e[0];
    }
  }
}
