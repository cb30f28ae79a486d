/**
 The standard RTP/RTSP sender of src/video_rxtx/h264_rtp.cpp: parsing of
 the `port=<n>` option, creation of the sender, the choice of the RTP
 payload sender by the first frame's codec, and the 90 kHz RTP timestamp
 sent with the sender's RTCP reports.

 Starting the RTSP server, sending, `rtp_update`, `rtp_send_ctrl` and
 `rtp_recv_r` are outside the model; the clock is the `now` argument.
 */
module H264Rtp {
  import opened Text
  import opened Codecs

  // ---------------------------------------------------------------------
  // Option parsing

  const PORT_MAX: int := 65535

  /** `get_rtsp_server_port`: -1 for a malformed option, else the port. */
  function GetRtspServerPort(config: string): (port: int)
    ensures port == -1 || 0 <= port <= PORT_MAX
    ensures !StartsWith(config, "port:") && !StartsWith(config, "port=") ==> port == -1
    ensures |config| <= 5 ==> port == -1
    ensures port != -1 ==> IsDigit(config[5]) && port == Atoi(config[5..])
    ensures (StartsWith(config, "port:") || StartsWith(config, "port=")) && |config| > 5 &&
              IsDigit(config[5]) && 0 <= Atoi(config[5..]) <= PORT_MAX
            ==> port == Atoi(config[5..])
  {
    if !StartsWith(config, "port:") && !StartsWith(config, "port=") then -1
    else if |config| == 5 then -1
    else
      var port := Atoi(config[5..]);
      if port < 0 || port > PORT_MAX || !IsDigit(config[5]) then -1 else port
  }

  /** What follows the five-character prefix decides the port. */
  lemma PortAfterPrefix(sepChar: char, tail: string)
    requires sepChar == '=' || sepChar == ':'
    requires |tail| > 0
    ensures var config := "port" + [sepChar] + tail;
            GetRtspServerPort(config) ==
              var port := Atoi(tail);
              if port < 0 || port > PORT_MAX || !IsDigit(tail[0]) then -1 else port
  {
    var config := "port" + [sepChar] + tail;
    assert config[..5] == "port" + [sepChar];
    assert config[5..] == tail;
  }

  /** The two separators are interchangeable: `port:` (deprecated) and
      `port=` give the same answer for every text after them. */
  lemma SeparatorIrrelevant(tail: string)
    ensures GetRtspServerPort("port:" + tail) == GetRtspServerPort("port=" + tail)
  {
    if |tail| > 0 {
      assert "port:" + tail == "port" + [':'] + tail;
      assert "port=" + tail == "port" + ['='] + tail;
      PortAfterPrefix(':', tail);
      PortAfterPrefix('=', tail);
    } else {
      assert |"port:" + tail| == 5 && |"port=" + tail| == 5;
    }
  }

  /** The parser reads back every port written with either separator,
      whatever non-digit text follows the number. */
  lemma PortRoundTrip(p: nat, sepChar: char, rest: string)
    requires p <= PORT_MAX
    requires sepChar == '=' || sepChar == ':'
    requires |rest| == 0 || !IsDigit(rest[0])
    ensures GetRtspServerPort("port" + [sepChar] + NatToDec(p) + rest) == p
  {
    var tail := NatToDec(p) + rest;
    assert "port" + [sepChar] + NatToDec(p) + rest == "port" + [sepChar] + tail;
    PortAfterPrefix(sepChar, tail);
    AtoiOfDecimal(p, rest);
  }

  /** Text after the prefix that does not start with a digit (a sign, a
      blank, a letter) is refused even where `atoi` would read a number. */
  lemma PortNeedsLeadingDigit(config: string)
    requires StartsWith(config, "port=") && |config| > 5 && !IsDigit(config[5])
    ensures GetRtspServerPort(config) == -1
  {
  }

  /** `atoi` cuts its 64-bit value to a 32-bit `int`, so a number 2^32 above
      a valid port passes the range check as that port. */
  lemma PortParserWrapsLargeNumbers(p: nat)
    requires p <= PORT_MAX
    ensures GetRtspServerPort("port=" + NatToDec(p + 0x1_0000_0000)) == p
  {
    var big := p + 0x1_0000_0000;
    var tail := NatToDec(big);
    assert "port=" + tail == "port" + ['='] + tail;
    PortAfterPrefix('=', tail);
    assert tail + "" == tail;
    AtoiOfDecimal(big, "");
    WrapAboveInt(p);
  }

  lemma WrapAboveInt(p: nat)
    requires p <= PORT_MAX
    ensures Wrap32(p + 0x1_0000_0000) == p
  {
    var x := p + 0x1_0000_0000 - INT32_MIN;
    assert x == (p - INT32_MIN) + 0x1_0000_0000;
    assert x % 0x1_0000_0000 == p - INT32_MIN;
  }

  // ---------------------------------------------------------------------
  // Creation

  datatype Created = Rxtx(rtspPort: nat) | NoRxtx

  /** `create_video_rxtx_h264_std`: empty options give the default port 0,
      `help` and a malformed port give no sender. */
  function CreateH264Std(opts: string): (r: Created)
    ensures opts == "" ==> r == Rxtx(0)
    ensures opts == "help" ==> r == NoRxtx
    ensures opts != "" && opts != "help" ==>
              (r == NoRxtx <==> GetRtspServerPort(opts) == -1) &&
              (r.Rxtx? ==> r.rtspPort == GetRtspServerPort(opts))
  {
    if |opts| == 0 then Rxtx(0)
    else if opts == "help" then NoRxtx
    else
      var port := GetRtspServerPort(opts);
      if port == -1 then NoRxtx else Rxtx(port)
  }

  lemma CreateWithPort(p: nat)
    requires p <= PORT_MAX
    ensures CreateH264Std("port=" + NatToDec(p)) == Rxtx(p)
  {
    PortRoundTrip(p, '=', "");
    assert "port" + ['='] + NatToDec(p) + "" == "port=" + NatToDec(p);
  }

  // ---------------------------------------------------------------------
  // Sender selection

  datatype PayloadSender = SendH264 | SendJpeg

  /** `m_rtsp_server` (started or not), the chosen `tx_send_std` and the
      codec announced to the RTSP server. */
  datatype TxState = TxState(serverStarted: bool, sender: Option<PayloadSender>, videoCodec: Codec)

  const InitialTx := TxState(false, None, H264)

  /** A running server always has a payload sender chosen. */
  ghost predicate TxInvariant(st: TxState) {
    st.serverStarted ==> st.sender.Some?
  }

  function SenderFor(codec: Codec): Option<PayloadSender> {
    match codec
    case H264 => Some(SendH264)
    case JPEG => Some(SendJpeg)
    case MJPG => Some(SendJpeg)
    case _ => None
  }

  predicate Supported(codec: Codec) {
    codec == H264 || codec == JPEG || codec == MJPG
  }

  /** The selection part of `send_frame`. While no server runs, an H.264 or
      JPEG/MJPG frame picks the payload sender, announces its codec and
      tries to start the server (`startOk` is whether `c_start_server`
      returned a server); the frame goes through the chosen sender either
      way. A frame of another codec is refused before that. Returns the
      sender the frame went through. */
  function SendFrame(st: TxState, codec: Codec, startOk: bool): (res: (TxState, Option<PayloadSender>))
    requires TxInvariant(st)
    ensures TxInvariant(res.0)
    ensures st.serverStarted ==> res == (st, st.sender)
    ensures !st.serverStarted && codec == H264 ==>
              res.0 == TxState(startOk, Some(SendH264), H264) && res.1 == Some(SendH264)
    ensures !st.serverStarted && (codec == JPEG || codec == MJPG) ==>
              res.0 == TxState(startOk, Some(SendJpeg), codec) && res.1 == Some(SendJpeg)
    ensures !st.serverStarted && !Supported(codec) ==> res == (st, None)
    ensures res.0.serverStarted <==> st.serverStarted || (Supported(codec) && startOk)
  {
    if st.serverStarted then (st, st.sender)
    else
      match SenderFor(codec)
      case None => (st, None)
      case Some(snd) => (TxState(startOk, Some(snd), codec), Some(snd))
  }

  /** One call of `send_frame`: the frame's codec and whether a start of
      the server made during it would succeed. */
  datatype FrameEvent = FrameEvent(codec: Codec, startOk: bool)

  /** Does this frame call `c_start_server`? */
  predicate Attempts(st: TxState, e: FrameEvent) {
    !st.serverStarted && Supported(e.codec)
  }

  /** Frames sent one after another; counts the calls of `c_start_server`
      and the successful ones. */
  function SendFrames(st: TxState, events: seq<FrameEvent>): (res: (TxState, nat, nat))
    requires TxInvariant(st)
    ensures TxInvariant(res.0)
    decreases |events|
  {
    if |events| == 0 then (st, 0, 0)
    else
      var (st1, _) := SendFrame(st, events[0].codec, events[0].startOk);
      var (st2, tries, starts) := SendFrames(st1, events[1..]);
      (st2, tries + (if Attempts(st, events[0]) then 1 else 0),
            starts + (if !st.serverStarted && st1.serverStarted then 1 else 0))
  }

  /** The server is started successfully at most once and never again once
      running; a start that fails is tried again with the next H.264 or JPEG
      frame, so every call before the success is a failed one. */
  lemma {:induction false} ServerStartedAtMostOnce(st: TxState, events: seq<FrameEvent>)
    requires TxInvariant(st)
    ensures SendFrames(st, events).2 <= 1
    ensures SendFrames(st, events).2 <= SendFrames(st, events).1
    ensures st.serverStarted ==> SendFrames(st, events) == (st, 0, 0)
    ensures SendFrames(st, events).0.serverStarted <==>
              st.serverStarted || exists i :: 0 <= i < |events| && Supported(events[i].codec) && events[i].startOk
    ensures (forall i :: 0 <= i < |events| ==> !events[i].startOk) ==>
              SendFrames(st, events).2 == 0 &&
              (!st.serverStarted ==>
                 SendFrames(st, events).1 == SupportedCount(events))
    decreases |events|
  {
    if |events| > 0 {
      var (st1, _) := SendFrame(st, events[0].codec, events[0].startOk);
      ServerStartedAtMostOnce(st1, events[1..]);
      var rest := events[1..];
      if exists i :: 0 <= i < |rest| && Supported(rest[i].codec) && rest[i].startOk {
        var i :| 0 <= i < |rest| && Supported(rest[i].codec) && rest[i].startOk;
        assert events[i + 1] == rest[i];
      }
      if exists i :: 0 <= i < |events| && Supported(events[i].codec) && events[i].startOk {
        var i :| 0 <= i < |events| && Supported(events[i].codec) && events[i].startOk;
        if i > 0 { assert rest[i - 1] == events[i]; }
      }
      if forall i :: 0 <= i < |events| ==> !events[i].startOk {
        assert forall i :: 0 <= i < |rest| ==> !rest[i].startOk by {
          forall i | 0 <= i < |rest| ensures !rest[i].startOk { assert rest[i] == events[i + 1]; }
        }
      }
    }
  }

  /** How many of the frames carry an H.264 or JPEG/MJPG codec. */
  function SupportedCount(events: seq<FrameEvent>): (n: nat)
    ensures n <= |events|
    ensures n == 0 <==> forall i :: 0 <= i < |events| ==> !Supported(events[i].codec)
  {
    if |events| == 0 then 0
    else
      var rest := SupportedCount(events[1..]);
      assert forall i :: 0 < i < |events| ==> events[i] == events[1..][i - 1];
      (if Supported(events[0].codec) then 1 else 0) + rest
  }

  // ---------------------------------------------------------------------
  // RTP timestamp

  /** C's `/` on integers truncates toward zero. */
  function CDiv(a: int, b: int): (q: int)
    requires b > 0
    ensures a >= 0 ==> q == a / b
    ensures a < 0 ==> q == -((-a) / b)
  {
    if a >= 0 then a / b else -((-a) / b)
  }

  /** `(uint32_t) ((curr_time - m_start_time) / 100'000 * 9)`: nanoseconds to
      a 90 kHz clock, computed in `int64_t` and cut to 32 bits. */
  function RtpTimestamp(now: int, start: int): (ts: nat)
    requires INT64_MIN <= now - start <= INT64_MAX
    ensures ts < 0x1_0000_0000
    ensures (ts - CDiv(now - start, 100000) * 9) % 0x1_0000_0000 == 0
    ensures 0 <= now - start && (now - start) / 100000 * 9 < 0x1_0000_0000 ==>
              ts * 100000 <= (now - start) * 9 < (ts + 9) * 100000
  {
    var d := now - start;
    if d >= 0 then
      TicksBracket(d);
      (CDiv(d, 100000) * 9) % 0x1_0000_0000
    else
      (CDiv(d, 100000) * 9) % 0x1_0000_0000
  }

  /** Whole 90 kHz ticks of `d` nanoseconds, before any wrap, bracket the
      exact value `d * 9 / 100000`. */
  lemma TicksBracket(d: nat)
    ensures d / 100000 * 9 * 100000 <= d * 9 < (d / 100000 * 9 + 9) * 100000
  {
    var q := d / 100000;
    var r := d % 100000;
    assert d == 100000 * q + r && 0 <= r < 100000;
    assert d * 9 == 900000 * q + 9 * r;
    assert q * 9 * 100000 == 900000 * q;
    assert (q * 9 + 9) * 100000 == 900000 * q + 900000;
  }

  /** Before the 32-bit wrap the timestamp never decreases as time passes. */
  lemma RtpTimestampMonotone(a: int, b: int, start: int)
    requires start <= a <= b
    requires b - start <= INT64_MAX
    requires (b - start) / 100000 * 9 < 0x1_0000_0000
    ensures RtpTimestamp(a, start) <= RtpTimestamp(b, start)
  {
    assert (a - start) / 100000 <= (b - start) / 100000;
  }
}
