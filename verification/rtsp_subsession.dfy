/**
 The RTSP media subsession of src/rtsp/BasicRTSPOnlySubsession.cpp: the SDP
 description it serves (built once and cached), the server ports it
 assigns in `getStreamParameters` and the destinations it forgets in
 `deleteStream`.

 The SDP follows RFC 4566 (section 5.14 for `m=`, 5.7 for `c=`, 5.8 for
 `b=`) with the `a=rtcp` attribute of RFC 3605. The track identifier
 (`trackId()`), the audio payload type and `a=rtpmap` line computed by
 `get_audio_rtp_pt_rtpmap`, and the client's address are inputs. The
 messages sent to the sender modules are outside the model.
 */
module RtspSubsession {
  import opened Text
  import opened Codecs

  /** `rtps_types_t`: which media the session carries. */
  datatype AvType = NoMedia | Audio | Video | AV {
    predicate HasVideo() { this == Video || this == AV }
    predicate HasAudio() { this == Audio || this == AV }
  }

  const AF_INET: int := 2

  /** The fields of `rtsp_server_parameters` the subsession reads. */
  datatype Params = Params(
    rtpPort: nat,
    rtpPortAudio: nat,
    videoCodec: Codec,
    audioPayloadType: nat,
    audioRtpmapLine: string)

  /** Where a client asked a stream to be sent. */
  datatype Destination = Destination(clientAddress: string, clientRtpPort: nat, clientRtcpPort: nat)

  datatype Subsession = Subsession(
    avType: AvType,
    params: Params,
    trackId: string,
    sdp: Option<string>,
    vDestination: Option<Destination>,
    aDestination: Option<Destination>)

  /** The constructor: no SDP yet, no destinations. */
  function NewSubsession(avType: AvType, params: Params, trackId: string): (s: Subsession)
    ensures s.sdp.None? && s.vDestination.None? && s.aDestination.None?
  {
    Subsession(avType, params, trackId, None, None, None)
  }

  // ---------------------------------------------------------------------
  // SDP

  /** A line as the format string ends it. */
  function Crlf(t: string): string { t + "\r\n" }

  /** The `c=` address text: "4 0.0.0.0" for IPv4, "6 ::" for anything else. */
  function IpVerAddr(addressFamily: int): (a: string)
    ensures addressFamily == AF_INET <==> a == "4 0.0.0.0"
    ensures addressFamily != AF_INET <==> a == "6 ::"
  {
    if addressFamily == AF_INET then "4 0.0.0.0" else "6 ::"
  }

  /** The text of each line of `sdpFmt` (without its CRLF). */
  function MediaLine(mediaType: string, port: nat, payloadType: nat): (l: string)
    ensures '\n' !in mediaType ==> '\n' !in l
  {
    NoLfInDecimal(port); NoLfInDecimal(payloadType);
    "m=" + mediaType + " " + NatToDec(port) + " RTP/AVP " + NatToDec(payloadType)
  }

  /** A line made of a key and a text value. */
  function TextLine(key: string, value: string): (l: string)
    ensures '\n' !in key && '\n' !in value ==> '\n' !in l
  {
    key + value
  }

  /** A line made of a key and a number printed with `%d`. */
  function NumberLine(key: string, n: nat): (l: string)
    ensures '\n' !in key ==> '\n' !in l
  {
    NoLfInDecimal(n);
    key + NatToDec(n)
  }

  /** One media description as the `sdpFmt` format string prints it. */
  function MediaBlock(mediaType: string, port: nat, payloadType: nat, ipVerAddr: string,
                      bitrate: nat, rtcpPort: nat, rtpmapLine: string, trackId: string): string
  {
    Crlf(MediaLine(mediaType, port, payloadType))
    + (Crlf(TextLine("c=IN IP", ipVerAddr))
    + (Crlf(NumberLine("b=AS:", bitrate))
    + (Crlf(NumberLine("a=rtcp:", rtcpPort))
    + (rtpmapLine
    + Crlf(TextLine("a=control:", trackId))))))
  }

  /** The video `a=rtpmap` line; note it ends in a bare LF. */
  const VIDEO_RTPMAP := "a=rtpmap:96 H264/90000\n"
  const VIDEO_BITRATE: nat := 5000
  const AUDIO_BITRATE: nat := 384
  const VIDEO_PAYLOAD_TYPE: nat := 96

  function VideoBlock(p: Params, ipVerAddr: string, trackId: string): string {
    MediaBlock("video", p.rtpPort, VIDEO_PAYLOAD_TYPE, ipVerAddr, VIDEO_BITRATE, p.rtpPort + 1, VIDEO_RTPMAP, trackId)
  }

  function AudioBlock(p: Params, ipVerAddr: string, trackId: string): string {
    MediaBlock("audio", p.rtpPortAudio, p.audioPayloadType, ipVerAddr, AUDIO_BITRATE, p.rtpPortAudio + 1,
               p.audioRtpmapLine, trackId)
  }

  /** A text that can be spliced between lines without breaking them. */
  predicate WholeLines(t: string) {
    |t| == 0 || t[|t| - 1] == '\n'
  }

  /** Read back line by line (split at LF), a media block is exactly its
      `m=`, `c=`, `b=` and `a=rtcp` lines, the rtpmap lines and the
      `a=control` line, in this order; CR stays at the end of each line. */
  lemma MediaBlockLines(mediaType: string, port: nat, payloadType: nat, ipVerAddr: string,
                        bitrate: nat, rtcpPort: nat, rtpmapLine: string, trackId: string)
    requires '\n' !in mediaType && '\n' !in ipVerAddr && '\n' !in trackId
    requires WholeLines(rtpmapLine)
    ensures Tokens(MediaBlock(mediaType, port, payloadType, ipVerAddr, bitrate, rtcpPort, rtpmapLine, trackId), '\n')
            == [MediaLine(mediaType, port, payloadType) + "\r",
                TextLine("c=IN IP", ipVerAddr) + "\r",
                NumberLine("b=AS:", bitrate) + "\r",
                NumberLine("a=rtcp:", rtcpPort) + "\r"]
               + Tokens(rtpmapLine, '\n')
               + [TextLine("a=control:", trackId) + "\r"]
  {
    BlockOfLines(MediaLine(mediaType, port, payloadType), TextLine("c=IN IP", ipVerAddr),
                 NumberLine("b=AS:", bitrate), NumberLine("a=rtcp:", rtcpPort), rtpmapLine, TextLine("a=control:", trackId));
  }

  /** Four CRLF lines, a block of whole lines, then one more CRLF line. */
  lemma BlockOfLines(l1: string, l2: string, l3: string, l4: string, middle: string, l5: string)
    requires '\n' !in l1 && '\n' !in l2 && '\n' !in l3 && '\n' !in l4 && '\n' !in l5
    requires WholeLines(middle)
    ensures Tokens(Crlf(l1) + (Crlf(l2) + (Crlf(l3) + (Crlf(l4) + (middle + Crlf(l5))))), '\n')
            == [l1 + "\r", l2 + "\r", l3 + "\r", l4 + "\r"] + Tokens(middle, '\n') + [l5 + "\r"]
  {
    var tm := Tokens(middle, '\n');
    var t4 := middle + Crlf(l5);
    assert Tokens(t4, '\n') == tm + [l5 + "\r"] by {
      CrlfLine(l5);
      TokensAppend(middle, Crlf(l5), '\n');
    }
    var t3 := Crlf(l4) + t4;
    CrlfThen(l4, t4);
    var t2 := Crlf(l3) + t3;
    CrlfThen(l3, t3);
    var t1 := Crlf(l2) + t2;
    CrlfThen(l2, t2);
    CrlfThen(l1, t1);
    FourThenMiddle(l1 + "\r", l2 + "\r", l3 + "\r", l4 + "\r", tm, l5 + "\r");
  }

  lemma FourThenMiddle<T>(a: T, b: T, c: T, d: T, m: seq<T>, e: T)
    ensures [a] + ([b] + ([c] + ([d] + (m + [e])))) == [a, b, c, d] + m + [e]
  {
  }

  lemma CrlfLine(t: string)
    requires '\n' !in t
    ensures WholeLines(Crlf(t))
    ensures Tokens(Crlf(t), '\n') == [t + "\r"]
  {
    assert Crlf(t) == (t + "\r") + ['\n'];
    TokensOfLine(t + "\r", '\n');
  }

  lemma CrlfThen(t: string, rest: string)
    requires '\n' !in t
    ensures Tokens(Crlf(t) + rest, '\n') == [t + "\r"] + Tokens(rest, '\n')
  {
    CrlfLine(t);
    TokensAppend(Crlf(t), rest, '\n');
  }

  lemma NoLfInDecimal(n: nat)
    ensures '\n' !in NatToDec(n)
  {
  }

  /** What building the description gives: the text (none for a session
      without media), or the failure of `assert(video_codec == H264)`. */
  datatype SdpOutcome = Built(sdp: Option<string>) | AssertionFailure

  /** `setSDPLines`: the video description for video, the audio one for
      audio; with both media the audio description replaces the video one.
      A session with neither medium gets no SDP. A video session whose
      codec is not H.264 fails the assertion before anything is built. */
  function SetSdpLines(s: Subsession, addressFamily: int): (r: SdpOutcome)
    ensures r.AssertionFailure? <==> s.avType.HasVideo() && s.params.videoCodec != H264
    ensures r.Built? ==> (r.sdp.None? <==> s.avType == NoMedia)
    ensures s.avType == Video && s.params.videoCodec == H264 ==>
              r == Built(Some(VideoBlock(s.params, IpVerAddr(addressFamily), s.trackId)))
    ensures s.avType == Audio || (s.avType == AV && s.params.videoCodec == H264) ==>
              r == Built(Some(AudioBlock(s.params, IpVerAddr(addressFamily), s.trackId)))
  {
    var ip := IpVerAddr(addressFamily);
    if s.avType.HasVideo() && s.params.videoCodec != H264 then AssertionFailure
    else
      var afterVideo := if s.avType.HasVideo() then Some(VideoBlock(s.params, ip, s.trackId)) else s.sdp;
      var afterAudio := if s.avType.HasAudio() then Some(AudioBlock(s.params, ip, s.trackId)) else afterVideo;
      Built(if s.avType == NoMedia then None else afterAudio)
  }

  /** `sdpLines`: build on the first call, serve the cached text afterwards.
      A failed build stores nothing. */
  function SdpLines(s: Subsession, addressFamily: int): (res: (Subsession, SdpOutcome))
    ensures res.1.Built? ==> res.1.sdp == res.0.sdp
    ensures s.sdp.Some? ==> res == (s, Built(s.sdp))
    ensures res.1.AssertionFailure? <==>
              s.sdp.None? && s.avType.HasVideo() && s.params.videoCodec != H264
    ensures res.1.AssertionFailure? ==> res.0 == s
    ensures s.sdp.None? && res.1.Built? ==>
              res.0 == s.(sdp := res.1.sdp) && res.1 == SetSdpLines(s, addressFamily)
    ensures res.0.avType == s.avType && res.0.params == s.params && res.0.trackId == s.trackId
  {
    if s.sdp.Some? then (s, Built(s.sdp))
    else
      match SetSdpLines(s, addressFamily)
      case AssertionFailure => (s, AssertionFailure)
      case Built(t) => (s.(sdp := t), Built(t))
  }

  /** Caching: once built, the description no longer depends on the
      address family asked for. */
  lemma SdpCached(s: Subsession, family1: int, family2: int)
    requires s.avType != NoMedia
    requires SdpLines(s, family1).1.Built?
    ensures var (s1, r1) := SdpLines(s, family1);
            r1.sdp.Some? && SdpLines(s1, family2) == (s1, r1)
  {
  }

  /** A video session announced with a JPEG or MJPG codec, as `send_frame`
      of src/video_rxtx/h264_rtp.cpp does for a JPEG stream, fails the
      assertion when a client first asks for its description. */
  lemma JpegVideoSessionAsserts(s: Subsession, addressFamily: int)
    requires s.avType.HasVideo() && s.sdp.None?
    requires s.params.videoCodec == JPEG || s.params.videoCodec == MJPG
    ensures SdpLines(s, addressFamily) == (s, AssertionFailure)
  {
  }

  /** The served video description, line by line. */
  lemma VideoSdpLines(p: Params, addressFamily: int, trackId: string)
    requires '\n' !in trackId
    ensures Tokens(VideoBlock(p, IpVerAddr(addressFamily), trackId), '\n')
            == ["m=video " + NatToDec(p.rtpPort) + " RTP/AVP 96\r",
                "c=IN IP" + IpVerAddr(addressFamily) + "\r",
                "b=AS:5000\r",
                "a=rtcp:" + NatToDec(p.rtpPort + 1) + "\r",
                "a=rtpmap:96 H264/90000",
                "a=control:" + trackId + "\r"]
  {
    var ip := IpVerAddr(addressFamily);
    VideoBlockLines(p, ip, trackId);
    VideoLineTexts(p.rtpPort);
  }

  lemma VideoBlockLines(p: Params, ip: string, trackId: string)
    requires '\n' !in trackId && '\n' !in ip
    ensures Tokens(VideoBlock(p, ip, trackId), '\n')
            == [MediaLine("video", p.rtpPort, 96) + "\r",
                TextLine("c=IN IP", ip) + "\r",
                NumberLine("b=AS:", 5000) + "\r",
                NumberLine("a=rtcp:", p.rtpPort + 1) + "\r",
                "a=rtpmap:96 H264/90000",
                TextLine("a=control:", trackId) + "\r"]
  {
    var rtpmap := "a=rtpmap:96 H264/90000";
    assert VIDEO_RTPMAP == rtpmap + ['\n'];
    assert '\n' !in "video" && '\n' !in rtpmap;
    assert VideoBlock(p, ip, trackId) ==
             MediaBlock("video", p.rtpPort, 96, ip, 5000, p.rtpPort + 1, rtpmap + ['\n'], trackId);
    SingleRtpmapLines("video", p.rtpPort, 96, ip, 5000, p.rtpPort + 1, rtpmap, trackId);
  }

  lemma SingleRtpmapLines(mediaType: string, port: nat, payloadType: nat, ipVerAddr: string,
                          bitrate: nat, rtcpPort: nat, rtpmap: string, trackId: string)
    requires '\n' !in mediaType && '\n' !in ipVerAddr && '\n' !in trackId
    requires |rtpmap| > 0 && '\n' !in rtpmap
    ensures Tokens(MediaBlock(mediaType, port, payloadType, ipVerAddr, bitrate, rtcpPort, rtpmap + ['\n'], trackId), '\n')
            == [MediaLine(mediaType, port, payloadType) + "\r",
                TextLine("c=IN IP", ipVerAddr) + "\r",
                NumberLine("b=AS:", bitrate) + "\r",
                NumberLine("a=rtcp:", rtcpPort) + "\r",
                rtpmap,
                TextLine("a=control:", trackId) + "\r"]
  {
    TokensOfLine(rtpmap, '\n');
    MediaBlockLines(mediaType, port, payloadType, ipVerAddr, bitrate, rtcpPort, rtpmap + ['\n'], trackId);
  }

  lemma VideoLineTexts(port: nat)
    ensures MediaLine("video", port, 96) + "\r" == "m=video " + NatToDec(port) + " RTP/AVP 96\r"
    ensures NumberLine("b=AS:", 5000) + "\r" == "b=AS:5000\r"
  {
    Decimal96And5000();
  }

  lemma Decimal96And5000()
    ensures NatToDec(96) == "96" && NatToDec(5000) == "5000"
  {
    assert NatToDec(9) == "9";
    assert NatToDec(5) == "5";
    assert NatToDec(50) == "50";
    assert NatToDec(500) == "500";
  }

  // ---------------------------------------------------------------------
  // Ports and destinations

  /** live555's `Port` keeps a 16-bit port number. */
  function Port16(n: nat): (p: nat)
    ensures p < 0x1_0000
    ensures n < 0x1_0000 ==> p == n
  {
    n % 0x1_0000
  }

  datatype ServerPorts = ServerPorts(rtp: nat, rtcp: nat)

  /** `getStreamParameters`: records the client as the destination of each
      medium of the session and answers with the server ports, RTCP being
      RTP + 1; with both media the audio ports are the answer. A session
      with no medium leaves the ports unset (`None`). */
  function GetStreamParameters(s: Subsession, client: Destination): (res: (Subsession, Option<ServerPorts>))
    ensures res.1.None? <==> s.avType == NoMedia
    ensures res.1.Some? ==> res.1.value.rtcp == Port16(res.1.value.rtp + 1)
    ensures s.avType == Video ==> res.1 == Some(ServerPorts(Port16(s.params.rtpPort), Port16(s.params.rtpPort + 1)))
    ensures s.avType.HasAudio() ==>
              res.1 == Some(ServerPorts(Port16(s.params.rtpPortAudio), Port16(s.params.rtpPortAudio + 1)))
    ensures res.0.vDestination == if s.avType.HasVideo() then Some(client) else s.vDestination
    ensures res.0.aDestination == if s.avType.HasAudio() then Some(client) else s.aDestination
    ensures res.0.sdp == s.sdp && res.0.avType == s.avType && res.0.params == s.params
  {
    var (s1, ports1) :=
      if s.avType.HasVideo() then
        (s.(vDestination := Some(client)), Some(ServerPorts(Port16(s.params.rtpPort), Port16(s.params.rtpPort + 1))))
      else (s, None);
    if s.avType.HasAudio() then
      (s1.(aDestination := Some(client)),
       Some(ServerPorts(Port16(s.params.rtpPortAudio), Port16(s.params.rtpPortAudio + 1))))
    else (s1, ports1)
  }

  /** The RTCP port the SDP advertises is the one the server answers with,
      for every port below the 16-bit limit. */
  lemma AdvertisedRtcpMatchesServer(s: Subsession, client: Destination, addressFamily: int)
    requires s.avType != NoMedia
    requires s.params.rtpPort < 0xFFFF && s.params.rtpPortAudio < 0xFFFF
    ensures var ports := GetStreamParameters(s, client).1.value;
            var media := if s.avType == Video then VideoBlock(s.params, IpVerAddr(addressFamily), s.trackId)
                         else AudioBlock(s.params, IpVerAddr(addressFamily), s.trackId);
            (SetSdpLines(s, addressFamily).Built? ==> SetSdpLines(s, addressFamily) == Built(Some(media))) &&
            media == MediaBlock(if s.avType == Video then "video" else "audio", ports.rtp,
                                if s.avType == Video then VIDEO_PAYLOAD_TYPE else s.params.audioPayloadType,
                                IpVerAddr(addressFamily),
                                if s.avType == Video then VIDEO_BITRATE else AUDIO_BITRATE,
                                ports.rtcp,
                                if s.avType == Video then VIDEO_RTPMAP else s.params.audioRtpmapLine,
                                s.trackId)
  {
  }

  /** `deleteStream`: the destinations of the session's media are dropped;
      anything else stays. */
  function DeleteStream(s: Subsession): (s': Subsession)
    ensures s'.vDestination == if s.avType.HasVideo() then None else s.vDestination
    ensures s'.aDestination == if s.avType.HasAudio() then None else s.aDestination
    ensures s'.sdp == s.sdp && s'.avType == s.avType && s'.params == s.params && s'.trackId == s.trackId
  {
    var s1 := if s.vDestination.Some? && s.avType.HasVideo() then s.(vDestination := None) else s;
    if s1.aDestination.Some? && s1.avType.HasAudio() then s1.(aDestination := None) else s1
  }

  /** Setting up and tearing down a stream leaves no destination behind for
      the media of the session. */
  lemma SetupThenDeleteClears(s: Subsession, client: Destination)
    ensures var s2 := DeleteStream(GetStreamParameters(s, client).0);
            (s.avType.HasVideo() ==> s2.vDestination.None?) &&
            (s.avType.HasAudio() ==> s2.aDestination.None?) &&
            s2.sdp == s.sdp
  {
  }
}
