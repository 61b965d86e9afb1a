/** The read-aloud and download controller of components/OutputSection.tsx:
    the component's state (`isReading`, `isAudioProcessing`, the source-node
    ref and the one-entry audio cache `audioBase64Ref`) and the handlers that
    change it. Each handler runs as one atomic step, because the buttons that
    start them are disabled while audio is being processed. The speech service
    is an oracle: each handler receives the reply it would give if asked,
    `Some(audio)` or `None` when `generateSpeech` throws. The state is kept
    as a value, `Reader`, with one function per handler; the `OutputSection`
    class below holds the same fields and its methods are proved to make
    exactly those transitions. */
module Playback {
  import opened JsText
  import opened Bytes
  import opened Base64
  import opened Types
  import opened Export
  import opened Pcm
  import opened Wav

  /** The messages `alert` shows when a handler fails. */
  const PlayFailedAlert := "Could not generate audio for this content. Please try again."
  const DownloadFailedAlert := "Could not download audio. Please try again."

  /** A started `AudioBufferSourceNode`: its identity (how many nodes the
      component started before it) and the samples of its buffer. */
  datatype SourceNode = SourceNode(id: nat, samples: seq<real>)

  /** A file handed to the browser through an anchor click. */
  datatype Download = AudioFile(name: string, bytes: seq<Byte>) | TextFile(name: string, text: string)

  /** The component's state, with logs of what it asked of the outside world:
      the scripts sent to the speech service, the nodes `stop()` was called
      on, the alerts shown, the downloads started and the clipboard writes.
      `playing` holds the ids of the nodes that are sounding (started, and
      neither stopped nor ended); `nodesStarted` counts the nodes started. */
  datatype Reader = Reader(
    content: Option<GeneratedContent>,
    style: PublicationStyle,
    isReading: bool,
    isAudioProcessing: bool,
    sourceNode: Option<SourceNode>,
    playing: set<nat>,
    nodesStarted: nat,
    audioCache: Option<string>,
    hasAudioContext: bool,
    speechRequests: seq<string>,
    stopped: seq<SourceNode>,
    alerts: seq<string>,
    downloads: seq<Download>,
    clipboard: seq<string>)

  /** JavaScript truthiness of a `string | null`: null and "" are false. */
  predicate Truthy(v: Option<string>) {
    v.Some? && v.value != ""
  }

  /** What holds between handlers: no audio is being processed, and while
      reading there is a node to stop. */
  predicate Valid(s: Reader) {
    !s.isAudioProcessing && (s.isReading ==> s.sourceNode.Some?)
  }

  /** The state of a freshly mounted component. */
  function Mounted(content: Option<GeneratedContent>, style: PublicationStyle): (s: Reader)
    ensures Valid(s) && !s.isReading && s.sourceNode.None? && s.audioCache.None?
    ensures s.playing == {} && s.speechRequests == [] && s.alerts == [] && s.downloads == []
  {
    Reader(content, style, false, false, None, {}, 0, None, false, [], [], [], [], [])
  }

  // ---------------------------------------------------------------------
  // stopAudio and the content-change effect

  /** `stopAudio`: stop the node if there is one (it falls silent), forget
      it, and clear `isReading`. */
  function AfterStop(s: Reader): (t: Reader)
    ensures t.sourceNode.None? && !t.isReading
    ensures t.stopped == s.stopped + (if s.sourceNode.Some? then [s.sourceNode.value] else [])
    ensures t.playing == if s.sourceNode.Some? then s.playing - {s.sourceNode.value.id} else s.playing
    ensures t.(sourceNode := s.sourceNode, isReading := s.isReading, stopped := s.stopped, playing := s.playing) == s
  {
    if s.sourceNode.Some? then
      s.(sourceNode := None, stopped := s.stopped + [s.sourceNode.value],
         playing := s.playing - {s.sourceNode.value.id}, isReading := false)
    else s.(isReading := false)
  }

  /** Stopping twice is stopping once: the second call finds no node and
      stops nothing more. */
  lemma StopIdempotent(s: Reader)
    ensures AfterStop(AfterStop(s)) == AfterStop(s)
  {
  }

  /** A new `content` prop: the previous effect's cleanup stops the audio,
      then the new effect empties the cache. */
  function AfterContentChange(s: Reader, content: Option<GeneratedContent>): (t: Reader)
    ensures t.content == content && t.audioCache.None?
    ensures t.sourceNode.None? && !t.isReading
    ensures t.speechRequests == s.speechRequests && t.alerts == s.alerts && t.downloads == s.downloads
  {
    AfterStop(s).(audioCache := None, content := content)
  }

  // ---------------------------------------------------------------------
  // fetchAudioData

  /** How `fetchAudioData` ends: it returns a value (the audio, or null
      without content) or throws what the speech service threw. */
  datatype FetchResult = Returned(value: Option<string>) | Threw

  datatype Fetched = Fetched(state: Reader, result: FetchResult)

  /** `fetchAudioData`, given the speech service's reply: a truthy cache
      entry is returned without asking; with no content it returns null;
      otherwise it sends the narration script and stores what comes back. */
  function AfterFetch(s: Reader, reply: Option<string>): (f: Fetched)
    ensures Truthy(s.audioCache) ==> f == Fetched(s, Returned(s.audioCache))
    ensures s.content.None? && !Truthy(s.audioCache) ==> f == Fetched(s, Returned(None))
    ensures s.content.Some? && !Truthy(s.audioCache) ==>
      && f.state.speechRequests == s.speechRequests + [NarrationScript(s.content.value)]
      && f.state.audioCache == (if reply.Some? then reply else s.audioCache)
      && f.result == (if reply.Some? then Returned(reply) else Threw)
      && f.state.(speechRequests := s.speechRequests, audioCache := s.audioCache) == s
  {
    if Truthy(s.audioCache) then Fetched(s, Returned(s.audioCache))
    else if s.content.None? then Fetched(s, Returned(None))
    else
      var asked := s.(speechRequests := s.speechRequests + [NarrationScript(s.content.value)]);
      match reply
      case None => Fetched(asked, Threw)
      case Some(audio) => Fetched(asked.(audioCache := Some(audio)), Returned(Some(audio)))
  }

  /** Once a synthesis has succeeded, asking again sends nothing: at most
      one request per content, whatever the service would say next. */
  lemma FetchTwiceAsksOnce(s: Reader, audio: string, reply: Option<string>)
    requires s.content.Some? && audio != ""
    ensures var f := AfterFetch(s, Some(audio));
      && AfterFetch(f.state, reply) == Fetched(f.state, Returned(f.state.audioCache))
      && |f.state.speechRequests| <= |s.speechRequests| + 1
  {
  }

  // ---------------------------------------------------------------------
  // handleReadAloud and the `ended` event

  /** Whether a fetch produced audio the handlers accept: they throw "No
      audio generated" on a falsy value. */
  predicate GotAudio(r: FetchResult) {
    r.Returned? && Truthy(r.value)
  }

  function Alert(s: Reader, message: string): (t: Reader)
    ensures t.alerts == s.alerts + [message]
  {
    s.(alerts := s.alerts + [message])
  }

  /** Decoding and starting playback of fetched audio: `atob` may throw,
      `decodePCM` may throw (odd or empty data); otherwise one new node
      plays the samples, the ref is overwritten with it (the node it held
      is not stopped) and `isReading` is set. */
  function Play(s: Reader, audio: string): (t: Reader)
    ensures (s.isReading ==> s.sourceNode.Some?) ==> (t.isReading ==> t.sourceNode.Some?)
    ensures t.audioCache == s.audioCache && t.speechRequests == s.speechRequests
    ensures t.stopped == s.stopped
    ensures t.playing == s.playing || (t.isReading && t.sourceNode.Some?
      && t.sourceNode.value.id == s.nodesStarted && t.playing == s.playing + {s.nodesStarted})
  {
    match BytesOfBase64(audio)
    case None => Alert(s, PlayFailedAlert)
    case Some(bytes) =>
      match PcmSamples(bytes)
      case None => Alert(s, PlayFailedAlert)
      case Some(samples) =>
        var node := SourceNode(s.nodesStarted, samples);
        s.(sourceNode := Some(node), playing := s.playing + {node.id},
           nodesStarted := s.nodesStarted + 1, isReading := true)
  }

  /** `handleReadAloud`: a toggle. While reading it only stops; without
      content it does nothing; otherwise it fetches, creates the audio
      context on first use, decodes and plays, alerting on any failure, and
      always clears `isAudioProcessing` at the end. */
  function AfterReadAloud(s: Reader, reply: Option<string>): (t: Reader)
    ensures s.isReading ==> t == AfterStop(s)
    ensures !s.isReading && s.content.None? ==> t == s
    ensures s.isReading || s.content.None? || !t.isAudioProcessing
  {
    if s.isReading then AfterStop(s)
    else if s.content.None? then s
    else PlayFetched(AfterFetch(s.(isAudioProcessing := true), reply)).(isAudioProcessing := false)
  }

  /** The steps of `handleReadAloud` after the fetch: no audio alerts;
      audio creates the context and is decoded and played. */
  function PlayFetched(f: Fetched): Reader {
    if GotAudio(f.result) then Play(f.state.(hasAudioContext := true), f.result.value.value)
    else Alert(f.state, PlayFailedAlert)
  }

  /** The `ended` event of node `node`, which fires when it finishes or
      after `stop()`: the node falls silent, and its `onended` clears
      `isReading`, whichever node is in the ref; the ref is kept. */
  function AfterEnded(s: Reader, node: nat): (t: Reader)
    ensures !t.isReading && t.playing == s.playing - {node}
    ensures t.(isReading := s.isReading, playing := s.playing) == s
  {
    s.(isReading := false, playing := s.playing - {node})
  }

  /** Reading aloud decoded audio: with nothing cached, the service's reply
      is cached and its samples play on one new node, with no alert. */
  lemma ReadAloudPlays(s: Reader, audio: string, bytes: seq<Byte>)
    requires !s.isReading && s.content.Some? && !Truthy(s.audioCache) && audio != ""
    requires BytesOfBase64(audio) == Some(bytes) && PcmSamples(bytes).Some?
    ensures var t := AfterReadAloud(s, Some(audio));
      && t.isReading && !t.isAudioProcessing
      && t.sourceNode == Some(SourceNode(s.nodesStarted, PcmSamples(bytes).value))
      && t.playing == s.playing + {s.nodesStarted}
      && t.audioCache == Some(audio) && t.hasAudioContext
      && t.alerts == s.alerts && t.stopped == s.stopped
      && t.speechRequests == s.speechRequests + [NarrationScript(s.content.value)]
  {
  }

  /** The canonical base64 of a nonempty payload is a truthy string. */
  lemma BtoaNonEmpty(b: seq<Byte>)
    requires |b| > 0
    ensures Btoa(b) != ""
  {
    assert |EncodeSextets(b)| > 0;
  }

  /** End to end: when the service returns the base64 of 16-bit PCM, the
      node plays samples that re-encode to exactly that PCM. */
  lemma ReadAloudPlaysSynthesizedPcm(s: Reader, pcm: seq<Byte>)
    requires !s.isReading && s.content.Some? && !Truthy(s.audioCache)
    requires |pcm| > 0 && |pcm| % 2 == 0
    ensures var t := AfterReadAloud(s, Some(Btoa(pcm)));
      && t.isReading && t.sourceNode.Some?
      && EncodePcm(t.sourceNode.value.samples) == pcm
      && |t.sourceNode.value.samples| == |pcm| / 2
  {
    BtoaNonEmpty(pcm);
    BytesOfBase64Btoa(pcm);
    ReadAloudPlays(s, Btoa(pcm), pcm);
    EncodePcmSamples(pcm);
  }

  /** A failed synthesis: one alert, no playback, the cache as it was, and
      the state ready for another try. */
  lemma ReadAloudFailure(s: Reader)
    requires Valid(s) && !s.isReading && s.content.Some? && !Truthy(s.audioCache)
    ensures var t := AfterReadAloud(s, None);
      && t.alerts == s.alerts + [PlayFailedAlert]
      && !t.isReading && t.sourceNode == s.sourceNode && t.audioCache == s.audioCache
      && Valid(t)
  {
  }

  // ---------------------------------------------------------------------
  // handleDownloadAudio, handleDownloadText, handleCopy

  /** The sample rate `handleDownloadAudio` writes into the WAV header. */
  const WavRate := 24000

  /** `handleDownloadAudio`, with the clock reading `now` for the file
      name: fetch, decode the base64 and download `createWavBlob` of the
      bytes; any failure alerts. Playback is not touched. */
  function SaveWav(s: Reader, audio: string, now: nat): (t: Reader)
    ensures t.audioCache == s.audioCache && t.speechRequests == s.speechRequests
    ensures t.isReading == s.isReading && t.sourceNode == s.sourceNode && t.playing == s.playing
  {
    match BytesOfBase64(audio)
    case None => Alert(s, DownloadFailedAlert)
    case Some(bytes) =>
      var file := AudioFile(DownloadFileName(s.style.id, now, "wav"), WavFile(bytes, WavRate));
      s.(downloads := s.downloads + [file])
  }

  function AfterDownloadAudio(s: Reader, reply: Option<string>, now: nat): (t: Reader)
    ensures s.content.None? ==> t == s
    ensures t.isReading == s.isReading && t.sourceNode == s.sourceNode && t.playing == s.playing
    ensures s.content.Some? ==> !t.isAudioProcessing
  {
    if s.content.None? then s
    else SaveFetched(AfterFetch(s.(isAudioProcessing := true), reply), now).(isAudioProcessing := false)
  }

  /** The steps of `handleDownloadAudio` after the fetch: no audio alerts;
      audio is decoded and saved as a WAV file. */
  function SaveFetched(f: Fetched, now: nat): Reader {
    if GotAudio(f.result) then SaveWav(f.state, f.result.value.value, now)
    else Alert(f.state, DownloadFailedAlert)
  }

  /** Saving the canonical base64 of a payload downloads the WAV file of
      exactly that payload. */
  lemma SaveWavOfBtoa(s: Reader, pcm: seq<Byte>, now: nat)
    ensures SaveWav(s, Btoa(pcm), now)
      == s.(downloads := s.downloads + [AudioFile(DownloadFileName(s.style.id, now, "wav"), WavFile(pcm, WavRate))])
  {
    BytesOfBase64Btoa(pcm);
  }

  /** End to end: the downloaded file is a WAV file that reads back as the
      synthesized PCM at 24 kHz, named after the style and the time. */
  lemma DownloadAudioWritesWav(s: Reader, pcm: seq<Byte>, now: nat)
    requires s.content.Some? && !Truthy(s.audioCache)
    requires |pcm| > 0 && 36 + |pcm| < 0x1_0000_0000
    ensures var t := AfterDownloadAudio(s, Some(Btoa(pcm)), now);
      && |t.downloads| == |s.downloads| + 1
      && t.downloads[..|s.downloads|] == s.downloads
      && var d := t.downloads[|s.downloads|];
      && d.AudioFile? && d.name == DownloadFileName(s.style.id, now, "wav")
      && ParseWav(d.bytes) == Some(WavInfo(24000, pcm))
      && t.alerts == s.alerts
  {
    BtoaNonEmpty(pcm);
    var f := AfterFetch(s.(isAudioProcessing := true), Some(Btoa(pcm)));
    assert GotAudio(f.result) && f.result.value.value == Btoa(pcm);
    SaveWavOfBtoa(f.state, pcm, now);
    ParseWavFile(pcm, WavRate);
  }

  /** `handleDownloadText`: the `.txt` export of the content. */
  function AfterDownloadText(s: Reader, now: nat): (t: Reader)
    ensures s.content.None? ==> t == s
    ensures s.content.Some? ==>
      t.downloads == s.downloads + [TextFile(DownloadFileName(s.style.id, now, "txt"), TextExport(s.content.value))]
    ensures t.(downloads := s.downloads) == s
  {
    if s.content.None? then s
    else
      var file := TextFile(DownloadFileName(s.style.id, now, "txt"), TextExport(s.content.value));
      s.(downloads := s.downloads + [file])
  }

  /** `handleCopy`: the clipboard text of the content. */
  function AfterCopy(s: Reader): (t: Reader)
    ensures s.content.None? ==> t == s
    ensures s.content.Some? ==> t.clipboard == s.clipboard + [ClipboardText(s.content.value)]
    ensures t.(clipboard := s.clipboard) == s
  {
    if s.content.None? then s
    else s.(clipboard := s.clipboard + [ClipboardText(s.content.value)])
  }

  // ---------------------------------------------------------------------
  // Runs of handlers

  /** What can happen to the component between renders: a button click
      (with the service's reply and the clock reading it would see), the
      node's natural end, or a new prop from the parent. */
  datatype Event =
    | ReadAloudClicked(reply: Option<string>)
    | Ended(node: nat)
    | DownloadAudioClicked(reply: Option<string>, now: nat)
    | DownloadTextClicked(now: nat)
    | CopyClicked
    | ContentChanged(content: Option<GeneratedContent>)
    | StyleChanged(style: PublicationStyle)

  function Step(s: Reader, e: Event): Reader {
    match e
    case ReadAloudClicked(reply) => AfterReadAloud(s, reply)
    case Ended(node) => AfterEnded(s, node)
    case DownloadAudioClicked(reply, now) => AfterDownloadAudio(s, reply, now)
    case DownloadTextClicked(now) => AfterDownloadText(s, now)
    case CopyClicked => AfterCopy(s)
    case ContentChanged(content) => AfterContentChange(s, content)
    case StyleChanged(style) => s.(style := style)
  }

  function Run(s: Reader, events: seq<Event>): Reader
    decreases |events|
  {
    if events == [] then s else Run(Step(s, events[0]), events[1..])
  }

  /** Every handler keeps the between-handlers invariant. */
  lemma StepValid(s: Reader, e: Event)
    requires Valid(s)
    ensures Valid(Step(s, e))
  {
    match e
    case ReadAloudClicked(reply) =>
      if !s.isReading && s.content.Some? {
        var f := AfterFetch(s.(isAudioProcessing := true), reply);
        if GotAudio(f.result) {
          var p := Play(f.state.(hasAudioContext := true), f.result.value.value);
          assert p.isReading ==> p.sourceNode.Some?;
        }
      }
    case _ =>
  }

  /** `isAudioProcessing` is false and `isReading` has a node after any
      sequence of handlers. */
  lemma {:induction false} RunValid(s: Reader, events: seq<Event>)
    requires Valid(s)
    ensures Valid(Run(s, events))
    decreases |events|
  {
    if events != [] {
      StepValid(s, events[0]);
      RunValid(Step(s, events[0]), events[1..]);
    }
  }

  /** No handler other than a content change touches a truthy cache or asks
      the speech service while it holds. */
  lemma StepKeepsCache(s: Reader, e: Event)
    requires Truthy(s.audioCache) && !e.ContentChanged?
    ensures Step(s, e).audioCache == s.audioCache
    ensures Step(s, e).speechRequests == s.speechRequests
  {
    match e
    case ReadAloudClicked(reply) =>
      if !s.isReading && s.content.Some? {
        var f := AfterFetch(s.(isAudioProcessing := true), reply);
        if GotAudio(f.result) {
          var p := Play(f.state.(hasAudioContext := true), f.result.value.value);
          assert p.audioCache == s.audioCache;
        }
      }
    case DownloadAudioClicked(reply, now) =>
    case _ =>
  }

  /** The audio cache: once synthesized, the audio serves every later read
      and download of the same content, and the service is not asked again,
      whatever it would reply. */
  lemma {:induction false} CachedRunAsksNothing(s: Reader, events: seq<Event>)
    requires Truthy(s.audioCache)
    requires forall i :: 0 <= i < |events| ==> !events[i].ContentChanged?
    ensures Run(s, events).audioCache == s.audioCache
    ensures Run(s, events).speechRequests == s.speechRequests
    decreases |events|
  {
    if events != [] {
      StepKeepsCache(s, events[0]);
      CachedRunAsksNothing(Step(s, events[0]), events[1..]);
    }
  }

  /** Two reads aloud of the same content, with any stops, ends, text
      downloads and copies between them, cost one synthesis when the first
      one succeeds. */
  lemma ReadAloudTwiceAsksOnce(s: Reader, audio: string, between: seq<Event>, reply: Option<string>)
    requires !s.isReading && s.content.Some? && !Truthy(s.audioCache) && audio != ""
    requires forall i :: 0 <= i < |between| ==> !between[i].ContentChanged?
    ensures var t := Run(AfterReadAloud(s, Some(audio)), between + [ReadAloudClicked(reply)]);
      t.speechRequests == s.speechRequests + [NarrationScript(s.content.value)]
  {
    var r := AfterReadAloud(s, Some(audio));
    var f := AfterFetch(s.(isAudioProcessing := true), Some(audio));
    if GotAudio(f.result) {
      var p := Play(f.state.(hasAudioContext := true), audio);
      assert p.audioCache == Some(audio) && p.speechRequests == f.state.speechRequests;
    }
    assert r.audioCache == Some(audio);
    var events := between + [ReadAloudClicked(reply)];
    assert forall i :: 0 <= i < |events| ==> !events[i].ContentChanged? by {
      forall i | 0 <= i < |events| ensures !events[i].ContentChanged? {
        if i < |between| { assert events[i] == between[i]; }
      }
    }
    CachedRunAsksNothing(r, events);
  }

  /** A content change drops the cache: the next read aloud asks the
      service for the new content's script. */
  lemma ContentChangeAsksAgain(s: Reader, content: GeneratedContent, reply: Option<string>)
    ensures var t := AfterReadAloud(AfterContentChange(s, Some(content)), reply);
      t.speechRequests == s.speechRequests + [NarrationScript(content)]
  {
  }

  // ---------------------------------------------------------------------
  // Sounding nodes

  /** Whether `node` is the node held in the ref. */
  predicate IsCurrent(s: Reader, node: nat) {
    s.sourceNode.Some? && s.sourceNode.value.id == node
  }

  /** The playback-session invariant: only the node in the ref may be
      sounding, and only while `isReading` is set, so a click that stops
      reading silences everything. */
  predicate OnePlaying(s: Reader) {
    && (forall n :: n in s.playing ==> IsCurrent(s, n))
    && (s.playing != {} ==> s.isReading)
  }

  /** Under the invariant the sounding nodes are among the node in the ref. */
  lemma PlayingIsCurrent(s: Reader)
    requires OnePlaying(s)
    ensures s.playing <= if s.sourceNode.Some? then {s.sourceNode.value.id} else {}
  {
  }

  /** Under the invariant at most one node is sounding. */
  lemma OnePlayingAtMostOne(s: Reader)
    requires OnePlaying(s)
    ensures |s.playing| <= 1
  {
    if s.playing != {} {
      var n :| n in s.playing;
      assert s.playing == {n};
    }
  }

  /** A click on the read-aloud button keeps the invariant: it either stops
      the one sounding node or, with none sounding, starts at most one. */
  lemma ReadAloudKeepsOnePlaying(s: Reader, reply: Option<string>)
    requires OnePlaying(s)
    ensures OnePlaying(AfterReadAloud(s, reply))
  {
    if s.isReading {
      PlayingIsCurrent(s);
    } else if s.content.Some? {
      assert s.playing == {};
      var f := AfterFetch(s.(isAudioProcessing := true), reply);
      assert f.state.playing == {};
    }
  }

  /** An `ended` event of `node` arrives while no other node is sounding:
      it comes from the sounding node, or from a node already stopped
      while nothing else sounds. */
  predicate EndsAlone(s: Reader, node: nat) {
    s.playing <= {node}
  }

  /** Every step keeps the invariant, provided no node other than the one
      that ended is sounding when an `ended` event arrives. */
  lemma StepOnePlaying(s: Reader, e: Event)
    requires OnePlaying(s) && (e.Ended? ==> EndsAlone(s, e.node))
    ensures OnePlaying(Step(s, e))
  {
    match e
    case ReadAloudClicked(reply) => ReadAloudKeepsOnePlaying(s, reply);
    case Ended(node) =>
      assert Step(s, e).playing == {};
    case ContentChanged(content) =>
      PlayingIsCurrent(s);
    case _ =>
  }

  /** Whether every `ended` event of a run arrives while no other node is
      sounding. */
  predicate AllEndsAlone(s: Reader, events: seq<Event>)
    decreases |events|
  {
    events == [] ||
      ((events[0].Ended? ==> EndsAlone(s, events[0].node)) && AllEndsAlone(Step(s, events[0]), events[1..]))
  }

  /** At most one node sounds after any run in which no `ended` event
      arrives while another node is sounding. */
  lemma {:induction false} RunOnePlaying(s: Reader, events: seq<Event>)
    requires OnePlaying(s) && AllEndsAlone(s, events)
    ensures OnePlaying(Run(s, events)) && |Run(s, events).playing| <= 1
    decreases |events|
  {
    if events == [] {
      OnePlayingAtMostOne(s);
    } else {
      StepOnePlaying(s, events[0]);
      RunOnePlaying(Step(s, events[0]), events[1..]);
    }
  }

  /** The cached audio is the base64 of non-empty 16-bit PCM, for content
      on display. */
  predicate CachedPcm(s: Reader, pcm: seq<Byte>) {
    s.content.Some? && s.audioCache == Some(Btoa(pcm)) && |pcm| > 0 && |pcm| % 2 == 0
  }

  /** With such a cache and nothing reading, a click starts the next node. */
  lemma PlayCachedPcm(s: Reader, pcm: seq<Byte>)
    requires CachedPcm(s, pcm) && !s.isReading
    ensures var t := AfterReadAloud(s, None);
      && t.isReading && IsCurrent(t, s.nodesStarted) && CachedPcm(t, pcm)
      && t.playing == s.playing + {s.nodesStarted} && t.nodesStarted == s.nodesStarted + 1
  {
    BtoaNonEmpty(pcm);
    BytesOfBase64Btoa(pcm);
    assert PcmSamples(pcm).Some?;
  }

  /** Play, stop, play again: node k is stopped and node k + 1 sounds. */
  lemma PlayStopPlay(s: Reader, pcm: seq<Byte>)
    requires CachedPcm(s, pcm) && !s.isReading && s.playing == {}
    ensures var k, t := s.nodesStarted, AfterReadAloud(AfterReadAloud(AfterReadAloud(s, None), None), None);
      && t.isReading && IsCurrent(t, k + 1) && CachedPcm(t, pcm)
      && t.playing == {k + 1} && t.nodesStarted == k + 2
  {
    var started := AfterReadAloud(s, None);
    PlayCachedPcm(s, pcm);
    var stopped := AfterReadAloud(started, None);
    PlayCachedPcm(stopped, pcm);
  }

  /** As written, a stopped node's late `ended` breaks the invariant: stop
      node k, start node k + 1, let node k's `ended` arrive, and the next
      click starts node k + 2 while node k + 1 still sounds. */
  lemma StaleEndedTwoPlaying(s: Reader, pcm: seq<Byte>)
    requires CachedPcm(s, pcm) && !s.isReading && s.playing == {}
    ensures var k := s.nodesStarted;
      var late := AfterEnded(AfterReadAloud(AfterReadAloud(AfterReadAloud(s, None), None), None), k);
      var last := AfterReadAloud(late, None);
      last.playing == {k + 1, k + 2} && !OnePlaying(last)
  {
    var k := s.nodesStarted;
    PlayStopPlay(s, pcm);
    var late := AfterEnded(AfterReadAloud(AfterReadAloud(AfterReadAloud(s, None), None), None), k);
    PlayCachedPcm(late, pcm);
  }

  /** The intended `onended`: clear `isReading` only when the node that
      ended is still the one in the ref. */
  function AfterEndedGuarded(s: Reader, node: nat): (t: Reader)
    ensures t.playing == s.playing - {node}
    ensures t.isReading == (s.isReading && !IsCurrent(s, node))
    ensures t.(isReading := s.isReading, playing := s.playing) == s
  {
    if IsCurrent(s, node) then AfterEnded(s, node) else s.(playing := s.playing - {node})
  }

  /** The guarded callback differs from the one as written exactly when a
      node other than the current one ends while reading. */
  lemma EndedGuardedAgrees(s: Reader, node: nat)
    ensures AfterEndedGuarded(s, node) == AfterEnded(s, node) <==> IsCurrent(s, node) || !s.isReading
  {
    if AfterEndedGuarded(s, node) == AfterEnded(s, node) {
      assert AfterEndedGuarded(s, node).isReading == AfterEnded(s, node).isReading;
    }
  }

  /** A step with the guarded callback. */
  function StepGuarded(s: Reader, e: Event): Reader {
    match e
    case Ended(node) => AfterEndedGuarded(s, node)
    case _ => Step(s, e)
  }

  function RunGuarded(s: Reader, events: seq<Event>): Reader
    decreases |events|
  {
    if events == [] then s else RunGuarded(StepGuarded(s, events[0]), events[1..])
  }

  /** With the guarded callback every step keeps the invariant, whichever
      node an `ended` event comes from. */
  lemma StepGuardedOnePlaying(s: Reader, e: Event)
    requires OnePlaying(s)
    ensures OnePlaying(StepGuarded(s, e))
  {
    match e
    case Ended(node) =>
      if IsCurrent(s, node) {
        StepOnePlaying(s, e);
      }
    case _ => StepOnePlaying(s, e);
  }

  /** With the guarded callback, at most one node sounds after any run. */
  lemma {:induction false} RunGuardedOnePlaying(s: Reader, events: seq<Event>)
    requires OnePlaying(s)
    ensures OnePlaying(RunGuarded(s, events)) && |RunGuarded(s, events).playing| <= 1
    decreases |events|
  {
    if events == [] {
      OnePlayingAtMostOne(s);
    } else {
      StepGuardedOnePlaying(s, events[0]);
      RunGuardedOnePlaying(StepGuarded(s, events[0]), events[1..]);
    }
  }

  /** On the run of `StaleEndedTwoPlaying`, the guarded callback ignores the
      late `ended`, so the last click stops node k + 1 and nothing sounds. */
  lemma StaleEndedGuarded(s: Reader, pcm: seq<Byte>)
    requires CachedPcm(s, pcm) && !s.isReading && s.playing == {}
    ensures var k := s.nodesStarted;
      var late := AfterEndedGuarded(AfterReadAloud(AfterReadAloud(AfterReadAloud(s, None), None), None), k);
      var last := AfterReadAloud(late, None);
      last.playing == {} && !last.isReading && OnePlaying(last)
  {
    PlayStopPlay(s, pcm);
  }

  // ---------------------------------------------------------------------
  // The component as an object

  /** The component instance: the hooks' state and refs as fields, each
      handler a method that updates them in place. */
  class OutputSection {
    var content: Option<GeneratedContent>
    var style: PublicationStyle
    var isReading: bool
    var isAudioProcessing: bool
    var sourceNode: Option<SourceNode>
    var playing: set<nat>
    var nodesStarted: nat
    var audioCache: Option<string>
    var hasAudioContext: bool
    var speechRequests: seq<string>
    var stopped: seq<SourceNode>
    var alerts: seq<string>
    var downloads: seq<Download>
    var clipboard: seq<string>

    /** The fields as a `Reader` value. */
    function Snapshot(): Reader
      reads this
    {
      Reader(content, style, isReading, isAudioProcessing, sourceNode, playing, nodesStarted, audioCache,
        hasAudioContext, speechRequests, stopped, alerts, downloads, clipboard)
    }

    /** Mounting: the initial `useState`/`useRef` values. */
    constructor (content: Option<GeneratedContent>, style: PublicationStyle)
      ensures Snapshot() == Mounted(content, style)
    {
      this.content := content;
      this.style := style;
      isReading := false;
      isAudioProcessing := false;
      sourceNode := None;
      playing := {};
      nodesStarted := 0;
      audioCache := None;
      hasAudioContext := false;
      speechRequests := [];
      stopped := [];
      alerts := [];
      downloads := [];
      clipboard := [];
    }

    /** `stopAudio`. */
    method StopAudio()
      modifies this
      ensures Snapshot() == AfterStop(old(Snapshot()))
    {
      if sourceNode.Some? {
        stopped := stopped + [sourceNode.value];
        playing := playing - {sourceNode.value.id};
        sourceNode := None;
      }
      isReading := false;
    }

    /** The `[content]` effect: cleanup of the previous run, then the new
        run. */
    method ContentChange(newContent: Option<GeneratedContent>)
      modifies this
      ensures Snapshot() == AfterContentChange(old(Snapshot()), newContent)
    {
      StopAudio();
      content := newContent;
      audioCache := None;
    }

    /** A new `style` prop; no effect depends on it. */
    method StyleChange(newStyle: PublicationStyle)
      modifies this
      ensures Snapshot() == old(Snapshot()).(style := newStyle)
    {
      style := newStyle;
    }

    /** `fetchAudioData`, with the service's reply. */
    method FetchAudioData(reply: Option<string>) returns (r: FetchResult)
      modifies this
      ensures Fetched(Snapshot(), r) == AfterFetch(old(Snapshot()), reply)
    {
      if Truthy(audioCache) {
        return Returned(audioCache);
      }
      if content.None? {
        return Returned(None);
      }
      var textToRead := NarrationScript(content.value);
      speechRequests := speechRequests + [textToRead];
      if reply.None? {
        return Threw;
      }
      audioCache := reply;
      r := Returned(reply);
    }

    /** `handleReadAloud`. */
    method HandleReadAloud(reply: Option<string>)
      modifies this
      ensures Snapshot() == AfterReadAloud(old(Snapshot()), reply)
    {
      if isReading {
        StopAudio();
        return;
      }
      if content.None? {
        return;
      }
      isAudioProcessing := true;
      var base64Audio := FetchAudioData(reply);
      PlayFetchedAudio(base64Audio);
      isAudioProcessing := false;
    }

    /** The rest of `handleReadAloud`'s `try` once `fetchAudioData` has
        returned or thrown: no audio alerts; audio creates the context and
        is played. */
    method PlayFetchedAudio(base64Audio: FetchResult)
      modifies this
      ensures Snapshot() == PlayFetched(Fetched(old(Snapshot()), base64Audio))
    {
      if !GotAudio(base64Audio) {
        alerts := alerts + [PlayFailedAlert];
      } else {
        hasAudioContext := true;
        PlayAudio(base64Audio.value.value);
      }
    }

    /** The decoding and playback steps of `handleReadAloud`, inside its
        `try`. */
    method PlayAudio(base64Audio: string)
      modifies this
      ensures Snapshot() == Play(old(Snapshot()), base64Audio)
    {
      var audioBytes := Base64ToUint8Array(base64Audio);
      if audioBytes.None? {
        alerts := alerts + [PlayFailedAlert];
        return;
      }
      var audioBuffer := DecodePcm(audioBytes.value);
      if audioBuffer.None? {
        alerts := alerts + [PlayFailedAlert];
        return;
      }
      StartNode(audioBuffer.value);
    }

    /** `createBufferSource`, `start(0)` and the ref update: the next node
        plays `samples` and the component is reading. */
    method StartNode(samples: seq<real>)
      modifies this
      ensures Snapshot() == old(Snapshot()).(sourceNode := Some(SourceNode(old(nodesStarted), samples)),
        playing := old(playing) + {old(nodesStarted)}, nodesStarted := old(nodesStarted) + 1, isReading := true)
    {
      var source := SourceNode(nodesStarted, samples);
      nodesStarted := nodesStarted + 1;
      playing := playing + {source.id};
      sourceNode := Some(source);
      isReading := true;
    }

    /** The `ended` event of node `node` and its `onended` callback. */
    method OnEnded(node: nat)
      modifies this
      ensures Snapshot() == AfterEnded(old(Snapshot()), node)
    {
      playing := playing - {node};
      isReading := false;
    }

    /** `handleDownloadAudio`, with the service's reply and the clock
        reading. */
    method HandleDownloadAudio(reply: Option<string>, now: nat)
      modifies this
      ensures Snapshot() == AfterDownloadAudio(old(Snapshot()), reply, now)
    {
      if content.None? {
        return;
      }
      isAudioProcessing := true;
      var base64Audio := FetchAudioData(reply);
      SaveFetchedAudio(base64Audio, now);
      isAudioProcessing := false;
    }

    /** The rest of `handleDownloadAudio`'s `try` once `fetchAudioData` has
        returned or thrown: no audio alerts; audio is saved. */
    method SaveFetchedAudio(base64Audio: FetchResult, now: nat)
      modifies this
      ensures Snapshot() == SaveFetched(Fetched(old(Snapshot()), base64Audio), now)
    {
      if !GotAudio(base64Audio) {
        alerts := alerts + [DownloadFailedAlert];
      } else {
        SaveWavFile(base64Audio.value.value, now);
      }
    }

    /** The decoding and download steps of `handleDownloadAudio`, inside its
        `try`. */
    method SaveWavFile(base64Audio: string, now: nat)
      modifies this
      ensures Snapshot() == SaveWav(old(Snapshot()), base64Audio, now)
    {
      var audioBytes := Base64ToUint8Array(base64Audio);
      if audioBytes.None? {
        alerts := alerts + [DownloadFailedAlert];
        return;
      }
      var wavBlob := CreateWavBlob(audioBytes.value, WavRate);
      downloads := downloads + [AudioFile(DownloadFileName(style.id, now, "wav"), wavBlob)];
    }

    /** `handleDownloadText`, with the clock reading. */
    method HandleDownloadText(now: nat)
      modifies this
      ensures Snapshot() == AfterDownloadText(old(Snapshot()), now)
    {
      if content.None? {
        return;
      }
      ghost var before := Snapshot();
      var textContent := TextExport(content.value);
      var file := TextFile(DownloadFileName(style.id, now, "txt"), textContent);
      downloads := downloads + [file];
      assert Snapshot() == before.(downloads := before.downloads + [file]);
    }

    /** `handleCopy`. */
    method HandleCopy()
      modifies this
      ensures Snapshot() == AfterCopy(old(Snapshot()))
    {
      if content.Some? {
        clipboard := clipboard + [ClipboardText(content.value)];
      }
    }
  }
}
