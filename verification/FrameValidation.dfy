/** Validation of translation frames and the acknowledgements that answer them. */
module FrameValidation {
  import opened Prelude
  import opened PcmCodec

  datatype Sink = VirtualMic | PhysicalPlayback

  datatype StreamState = Started | Chunk | Ended

  /** The wire's type tags; `Other` stands for any tag not listed. */
  datatype EventType = TranslationFrame | TranslationAck | TranslationNack | Other(tag: string)

  datatype ErrorCode = SessionMismatch | InvalidAudioDirection | InvalidPcmPayload

  /** One value per message text. */
  datatype Reason =
    | WrongSession | NotATranslationFrame | IncompleteChunkPair | IncompleteStreamIdentity
    | LengthMismatch | OddPayload

  datatype Header = Header(
    eventType: EventType,
    requestId: string,
    sessionId: string,
    frameId: string,
    channelCount: nat,
    frameCount: nat,
    payloadBytes: nat,
    bridgeInstanceId: Option<string>,
    playbackOwnerGeneration: Option<nat>,
    sourceGeneration: Option<nat>,
    sourceGenerationToken: Option<string>,
    physicalPlaybackDeviceId: Option<string>,
    cueId: Option<string>,
    chunkIndex: Option<nat>,
    chunkCount: Option<nat>,
    streamState: Option<StreamState>,
    translationSink: Option<Sink>
  )

  /** The write authority a frame carries and its acknowledgement must echo. */
  datatype Authority = Authority(
    requestId: string, frameId: string, sessionId: string, bridgeInstanceId: string,
    sourceGeneration: nat, sourceGenerationToken: string,
    playbackOwnerGeneration: nat, physicalPlaybackDeviceId: string
  )

  datatype Ack = Ack(
    eventType: EventType, authority: Authority, acceptedFrames: nat, playbackFramesWritten: nat,
    errorCode: Option<ErrorCode>, message: Option<Reason>
  )

  datatype Verdict = Accepted(samples: seq<int16>) | Rejected(ack: Ack)

  function OrDefault<T>(value: Option<T>, default: T): T {
    match value case Some(v) => v case None => default
  }

  function Echo(h: Header): Authority {
    Authority(h.requestId, h.frameId, h.sessionId, OrDefault(h.bridgeInstanceId, ""),
              OrDefault(h.sourceGeneration, 0), OrDefault(h.sourceGenerationToken, ""),
              OrDefault(h.playbackOwnerGeneration, 0), OrDefault(h.physicalPlaybackDeviceId, ""))
  }

  function AcceptedAck(h: Header, playbackFramesWritten: nat): Ack {
    Ack(TranslationAck, Echo(h), h.frameCount, playbackFramesWritten, None, None)
  }

  function RejectedAck(h: Header, errorCode: ErrorCode, message: Reason): Ack {
    Ack(TranslationNack, Echo(h), 0, 0, Some(errorCode), Some(message))
  }

  /** `checked_mul` of the length type. */
  function CheckedMul(a: nat, b: nat): Option<nat> {
    if a * b <= USIZE_MAX then Some(a * b) else None
  }

  function ExpectedBytes(h: Header): Option<nat> {
    match CheckedMul(h.frameCount, h.channelCount)
    case Some(samples) => CheckedMul(samples, 2)
    case None => None
  }

  predicate MissingCue(h: Header) {
    h.cueId.None? || h.cueId.value == ""
  }

  function Validate(activeSession: Option<string>, h: Header, payload: Bytes): Verdict {
    if activeSession != Some(h.sessionId) then
      Rejected(RejectedAck(h, SessionMismatch, WrongSession))
    else if h.eventType != TranslationFrame then
      Rejected(RejectedAck(h, InvalidAudioDirection, NotATranslationFrame))
    else if h.translationSink == Some(VirtualMic)
            && (MissingCue(h)
                || !(h.chunkIndex.Some? && h.chunkCount.Some?
                     && h.chunkCount.value > 0 && h.chunkIndex.value < h.chunkCount.value)) then
      Rejected(RejectedAck(h, InvalidPcmPayload, IncompleteChunkPair))
    else if h.translationSink == Some(PhysicalPlayback) && h.streamState.Some?
            && (MissingCue(h) || h.chunkIndex.None? || h.chunkCount.Some?) then
      Rejected(RejectedAck(h, InvalidPcmPayload, IncompleteStreamIdentity))
    else if h.channelCount == 0 || ExpectedBytes(h) != Some(h.payloadBytes) || h.payloadBytes != |payload| then
      Rejected(RejectedAck(h, InvalidPcmPayload, LengthMismatch))
    else
      match DecodePcm16Le(payload)
      case Samples(samples) => Accepted(samples)
      case OddLength => Rejected(RejectedAck(h, InvalidPcmPayload, OddPayload))
  }

  /** A frame for the virtual microphone belongs to a cue and is chunk number index of count. */
  ghost predicate ChunkPairComplete(h: Header) {
    h.translationSink == Some(VirtualMic) ==>
      && !MissingCue(h)
      && exists index, count :: h.chunkIndex == Some(index) && h.chunkCount == Some(count) && index < count
  }

  /** A streamed frame for physical playback belongs to a cue, has an index and leaves the count open. */
  ghost predicate StreamIdentityComplete(h: Header) {
    h.translationSink == Some(PhysicalPlayback) && h.streamState.Some? ==>
      !MissingCue(h) && h.chunkIndex.Some? && h.chunkCount.None?
  }

  /** What a frame must satisfy, in terms of the protocol rather than of the checks' order. */
  ghost predicate WellFormed(activeSession: Option<string>, h: Header, payload: Bytes) {
    && activeSession == Some(h.sessionId)
    && h.eventType == TranslationFrame
    && ChunkPairComplete(h)
    && StreamIdentityComplete(h)
    && h.channelCount > 0
    && |payload| == h.payloadBytes == 2 * (h.frameCount * h.channelCount)
  }

  /** The checked multiplications fail only on products no payload can have. */
  lemma ExpectedBytesIs(h: Header, n: nat)
    requires n <= USIZE_MAX
    ensures ExpectedBytes(h) == Some(n) <==> n == 2 * (h.frameCount * h.channelCount)
  {
  }

  /**
   A frame is accepted exactly when it is well formed, and then its samples are one per frame
   and channel and encode to the payload again.
   */
  lemma AcceptedExactlyWhenWellFormed(activeSession: Option<string>, h: Header, payload: Bytes)
    requires |payload| <= USIZE_MAX
    ensures Validate(activeSession, h, payload).Accepted? <==> WellFormed(activeSession, h, payload)
    ensures Validate(activeSession, h, payload).Accepted? ==>
              var samples := Validate(activeSession, h, payload).samples;
              |samples| == h.frameCount * h.channelCount && Encoded(samples) == payload
  {
    ExpectedBytesIs(h, |payload|);
    EncodeDecoded(payload);
  }

  /** The acknowledgement names the frame, session and owner it is for; what a header lacks is blank or 0. */
  ghost predicate Carries(a: Authority, h: Header) {
    && a.requestId == h.requestId && a.frameId == h.frameId && a.sessionId == h.sessionId
    && (h.bridgeInstanceId == Some(a.bridgeInstanceId) || (h.bridgeInstanceId.None? && a.bridgeInstanceId == ""))
    && (h.sourceGeneration == Some(a.sourceGeneration) || (h.sourceGeneration.None? && a.sourceGeneration == 0))
    && (h.sourceGenerationToken == Some(a.sourceGenerationToken)
        || (h.sourceGenerationToken.None? && a.sourceGenerationToken == ""))
    && (h.playbackOwnerGeneration == Some(a.playbackOwnerGeneration)
        || (h.playbackOwnerGeneration.None? && a.playbackOwnerGeneration == 0))
    && (h.physicalPlaybackDeviceId == Some(a.physicalPlaybackDeviceId)
        || (h.physicalPlaybackDeviceId.None? && a.physicalPlaybackDeviceId == ""))
  }

  /** An acceptance carries the authority and all frames, and no error. */
  lemma AcceptanceCarriesAuthority(h: Header, playbackFramesWritten: nat)
    ensures var ack := AcceptedAck(h, playbackFramesWritten);
            && ack.eventType == TranslationAck && Carries(ack.authority, h)
            && ack.acceptedFrames == h.frameCount && ack.playbackFramesWritten == playbackFramesWritten
            && ack.errorCode.None? && ack.message.None?
  {
  }

  /** The first requirement a frame misses is the reason it is given, with the code of that reason. */
  ghost predicate Explains(activeSession: Option<string>, h: Header, ack: Ack) {
    var mine, frame := activeSession == Some(h.sessionId), h.eventType == TranslationFrame;
    && (ack.message == Some(WrongSession) <==> !mine)
    && (ack.message == Some(NotATranslationFrame) <==> mine && !frame)
    && (ack.message == Some(IncompleteChunkPair) <==> mine && frame && !ChunkPairComplete(h))
    && (ack.message == Some(IncompleteStreamIdentity) <==>
          mine && frame && ChunkPairComplete(h) && !StreamIdentityComplete(h))
    && (ack.message == Some(LengthMismatch) <==>
          mine && frame && ChunkPairComplete(h) && StreamIdentityComplete(h))
    && (ack.errorCode == Some(SessionMismatch) <==> !mine)
    && (ack.errorCode == Some(InvalidAudioDirection) <==> mine && !frame)
    && (ack.errorCode == Some(InvalidPcmPayload) <==> mine && frame)
  }

  /**
   A rejection is a nack that carries the authority, accepts and plays nothing and gives the first
   reason. The branch of a failed decode is never taken: an odd payload is refused for its length.
   */
  lemma RejectionEchoesAuthority(activeSession: Option<string>, h: Header, payload: Bytes)
    requires |payload| <= USIZE_MAX && Validate(activeSession, h, payload).Rejected?
    ensures var ack := Validate(activeSession, h, payload).ack;
            && ack.eventType == TranslationNack && Carries(ack.authority, h)
            && ack.authority == AcceptedAck(h, 0).authority
            && ack.acceptedFrames == 0 && ack.playbackFramesWritten == 0
            && Explains(activeSession, h, ack)
  {
    ExpectedBytesIs(h, |payload|);
  }
}
