# UltraGrid core logic in Dafny

This project models six pieces of sequential logic from UltraGrid, the
low-latency audio/video streaming system. Each piece is a module of immutable
datatypes and pure functions. Contracts and lemmas state what the original C
and C++ code promises. SDL, the Windows registry, the network and the thread
plumbing are replaced by inputs, such as "did `SDL_CreateTexture` succeed" or
"the path `get_exec_path` produced".

- **`Sdl2Pool`, `Sdl2Reconfigure`, `Sdl2Keys`, `Sdl2Control`, `Sdl2Formats`,
  `Sdl2Options`** (src/video_display/sdl2.cpp). These cover the SDL2 video
  display.
  - The frame pool is modelled as a state record: the free-frame queue,
    `last_frame`, and the new-frame events waiting in the SDL queue. Its
    transitions are `getf`, `putf` (submit, discard, drop), `display_frame`,
    the redraw on expose, `cleanup_frames`/`recreate_textures` and
    `display_sdl2_reconfigure_real`.
  - Buffer conservation is proved for every run of the corrected pool.
  - Also modelled: the translation of SDL key events, the local keys
    `d`/`f`/`q`, the control-message classifier, the pixel-format table and
    the `-d sdl:...` option parser.
- **`JpegDepay`** (src/rtp/rtpdec_jpeg.c). This is the RTP/JPEG
  depacketiser of RFC 2435.
  - It parses the main header (section 3.1), the restart marker header
    (section 3.1.7) and the quantization table header (section 3.1.8).
  - It reassembles a frame by the 24-bit fragment offsets. Once the frame
    exists, the resulting `data_len` is proved independent of the order of
    the packets that follow. The packet that creates the frame is not
    covered, because the header length comes from that packet's own fields.
  - It drops a frame that has no tables for its Q.
- **`H264Rtp`** (src/video_rxtx/h264_rtp.cpp). This covers the
  `port=`/`port:` option, creation of the sender, the choice of payload
  sender by the first frame's codec, and the 90 kHz RTP timestamp derived
  from nanoseconds.
- **`RtspSubsession`** (src/rtsp/BasicRTSPOnlySubsession.cpp). This is the
  SDP description, with the `m=`, `c=` and `b=` lines of RFC 4566 sections
  5.14, 5.7 and 5.8 and the `a=rtcp` attribute of RFC 3605.
  - The description is built once and cached.
  - A video session whose codec is not H.264 fails `setSDPLines`'s
    assertion. This includes the JPEG or MJPG codec that `send_frame` of
    h264_rtp.cpp announces for a JPEG stream.
  - The server answers with ports RTP and RTP + 1.
  - `deleteStream` forgets the destinations.
- **`FsPaths`** (src/utils/fs.cpp). This covers the memoised temporary
  directory with its bounded `/` append, and the installation root: the
  executable's path minus its name and a trailing `bin` or `MacOS`.
- **`ScreenWin`** (src/video_capture/screen_win.c). This is the
  `width=`/`height=`/`fps=` option validator of the Windows screen capture.
  The registry write is a sink that may refuse.
- **`Text`**. These are the C library pieces the sources rely on, stated
  once:
  - `strstr`, `strchr`, `strtok_r`;
  - `atoi`, which is `strtol` in base 10 saturated to a 64-bit `long` and
    then cut to a 32-bit `int`;
  - `strtol` in base 0;
  - `sscanf` with `%d` and `%i`;
  - `%d`/`%u` printing.
- **`Codecs`** holds the `codec_t` identifiers these files compare against.

Integer widths are explicit wherever the source depends on them:
- `atoi` wraps to 32 bits;
- `strtol` saturates at 32 bits on Windows;
- an `int` stored in a `uint32_t` window-flag word keeps its low 32 bits;
- the RTP timestamp is cut to 32 bits;
- C's `/` truncates toward zero (`H264Rtp.CDiv`).

A read past the end of an RTP packet is the outcome `ReadPastEnd`. A failing
C `assert` in rtpdec_jpeg.c and in `setSDPLines` is the outcome
`AssertionFailure`. The assertions of sdl2.cpp are preconditions (see
"## Left out").

## Model

| member | source | states |
|---|---|---|
| Text.Find | src/video_display/sdl2.cpp:596 | `strstr` gives the index of the first occurrence of the needle, and no index exactly when the needle occurs nowhere; the index is 0 exactly when the text starts with the needle (the `strstr(tok, p) == tok` test) |
| Text.IndexOf | src/video_display/sdl2.cpp:591-593 | `strchr` gives no index exactly when the character is absent, otherwise the index of its first occurrence |
| Text.Tokens | src/video_display/sdl2.cpp:566-567 | every token `strtok_r` yields is non-empty and free of the separator |
| Text.TokensOfJoin | src/video_capture/screen_win.c:137 | splitting non-empty separator-free tokens joined by single separators gives the tokens back |
| Text.TokensAppend | src/video_capture/screen_win.c:137 | splitting distributes over a concatenation whose first part ends with the separator |
| Text.Atoi | src/video_display/sdl2.cpp:572 | `atoi` always yields a value in the 32-bit `int` range |
| Text.AtoiOfDecimal | src/video_rxtx/h264_rtp.cpp:155 | `atoi` reads back any printed non-negative number followed by non-digits, modulo 2^32, and exactly when it fits an `int` |
| Text.AtoiOfIntToDec | src/video_display/sdl2.cpp:297 | `sscanf("%d")` succeeds on, and `atoi` reads back, every `int` printed with `%d` followed by non-digits |
| Text.Strtol0OfDecimal | src/video_capture/screen_win.c:154 | `strtol` in base 0 reads a `%u` rendering back whole and exactly, 0 included |
| Text.Strtol0StopsBefore | src/video_capture/screen_win.c:154-155 | a character that cannot be part of a base-0 number is never consumed by `strtol` |
| Text.ValueOfNatToDec | src/video_rxtx/h264_rtp.cpp:155 | the digits printed for `n` denote `n` |
| FsPaths.TempDirBase | src/utils/fs.cpp:68-73 | TMPDIR cut to fewer than `MAX_PATH_SIZE` characters is a prefix of TMPDIR, and is TMPDIR itself when it fits; without TMPDIR it is `P_tmpdir` |
| FsPaths.GetTempDir | src/utils/fs.cpp:55-78 | a filled buffer is returned unchanged; otherwise the result is the base plus "/" exactly when there is room, and the base alone otherwise; it always fits the buffer and is what the buffer keeps |
| FsPaths.TempDirMemoised | src/utils/fs.cpp:57-61 | after one call a second call returns the same text, even when TMPDIR has changed |
| FsPaths.TempDirFromEnv | src/utils/fs.cpp:68-74 | with room to spare the directory is exactly `$TMPDIR/` |
| FsPaths.LastDelim | src/utils/fs.cpp:119 | `strrpbrk(path, "/\\")` finds a delimiter with none after it, or reports none exactly when the path has none |
| FsPaths.GetInstallRoot | src/utils/fs.cpp:114-132 | no root when the executable path is unknown or has no delimiter; otherwise the root is a prefix of the path that ends before the last delimiter |
| FsPaths.InstallRootOfBareDir | src/utils/fs.cpp:123-127 | with a single delimiter the directory in front of the executable is the root, whatever its name |
| FsPaths.InstallRootOfLayout | src/utils/fs.cpp:123-131 | `<root>/bin/<exe>` and `<root>/MacOS/<exe>` give `<root>` with either delimiter; any other last directory is kept |
| FsPaths.InstallRootUsrLocal | src/utils/fs.cpp:109-113 | "/usr/local/bin/uv" has the root "/usr/local", as the documentation comment says |
| H264Rtp.GetRtspServerPort | src/video_rxtx/h264_rtp.cpp:140-162 | the answer is -1 or a port 0..65535; -1 without the `port:`/`port=` prefix or with nothing after it; a port is accepted exactly when the text after the prefix starts with a digit and `atoi` of it is in 0..65535, and it is that value |
| H264Rtp.SeparatorIrrelevant | src/video_rxtx/h264_rtp.cpp:152-161 | the deprecated `port:` and `port=` give the same answer for every text after them |
| H264Rtp.PortRoundTrip | src/video_rxtx/h264_rtp.cpp:140-162 | every port 0..65535 written after either prefix is read back, whatever non-digit text follows |
| H264Rtp.PortNeedsLeadingDigit | src/video_rxtx/h264_rtp.cpp:156 | a sign, a blank or a letter right after the prefix is refused |
| H264Rtp.PortParserWrapsLargeNumbers | src/video_rxtx/h264_rtp.cpp:155-156 | a number 2^32 above a valid port passes the range check as that port, because `atoi` cuts to 32 bits |
| H264Rtp.CreateH264Std | src/video_rxtx/h264_rtp.cpp:164-181 | empty options give port 0, "help" gives no sender, and otherwise there is a sender exactly when the port parses, on that port |
| H264Rtp.CreateWithPort | src/video_rxtx/h264_rtp.cpp:164-181 | `port=<p>` creates a sender on port p for every valid p |
| H264Rtp.SendFrame | src/video_rxtx/h264_rtp.cpp:80-98 | while no server runs, H.264 selects the H.264 sender and JPEG/MJPG the JPEG sender; each announces its codec and tries to start the server, which then runs exactly when `c_start_server` succeeds; any other codec changes nothing; once running, the sender is kept; a running server always has a sender |
| H264Rtp.ServerStartedAtMostOnce | src/video_rxtx/h264_rtp.cpp:80-98 | over any sequence of frames the server is started successfully at most once, and never tried again once it runs; it ends up running exactly when some H.264 or JPEG frame met a successful start; while every start fails, each H.264 or JPEG frame tries again |
| H264Rtp.CDiv | src/video_rxtx/h264_rtp.cpp:104 | C division truncates toward zero, for negative dividends too |
| H264Rtp.RtpTimestamp | src/video_rxtx/h264_rtp.cpp:103-104 | the timestamp is a 32-bit value congruent to the whole 100 µs periods times 9; before the wrap it lies within 9 ticks below the exact 90 kHz count |
| H264Rtp.RtpTimestampMonotone | src/video_rxtx/h264_rtp.cpp:103-104 | before the 32-bit wrap, later times never give smaller timestamps |
| RtspSubsession.NewSubsession | src/rtsp/BasicRTSPOnlySubsession.cpp:67-79 | a new subsession has no SDP and no destinations |
| RtspSubsession.IpVerAddr | src/rtsp/BasicRTSPOnlySubsession.cpp:96-97 | the `c=` address is "4 0.0.0.0" exactly for AF_INET, "6 ::" otherwise |
| RtspSubsession.MediaBlockLines | src/rtsp/BasicRTSPOnlySubsession.cpp:108-113 | read line by line, a media block is its `m=`, `c=`, `b=`, `a=rtcp` lines, the rtpmap lines and the `a=control` line, in that order, each CRLF line keeping its CR |
| RtspSubsession.SetSdpLines | src/rtsp/BasicRTSPOnlySubsession.cpp:94-168 | a video session whose codec is not H.264 fails the assertion; otherwise video sessions get the video block and sessions with audio the audio block (for audio+video the audio block replaces the video one); sessions with neither get nothing |
| RtspSubsession.SdpLines | src/rtsp/BasicRTSPOnlySubsession.cpp:87-168 | the first call builds and stores the description; later calls serve the stored one; the call fails the assertion exactly when nothing is stored yet and a video session has a codec other than H.264, and then nothing is stored; nothing else changes |
| RtspSubsession.SdpCached | src/rtsp/BasicRTSPOnlySubsession.cpp:87-92 | once built, the description no longer depends on the address family asked for |
| RtspSubsession.JpegVideoSessionAsserts | src/rtsp/BasicRTSPOnlySubsession.cpp:99-101 | a video session announced with a JPEG or MJPG codec fails the assertion when its description is first asked for |
| RtspSubsession.VideoSdpLines | src/rtsp/BasicRTSPOnlySubsession.cpp:100-129 | the video description is exactly `m=video <port> RTP/AVP 96`, `c=IN IP...`, `b=AS:5000`, `a=rtcp:<port+1>`, `a=rtpmap:96 H264/90000` (LF only) and `a=control:<track>` |
| RtspSubsession.Port16 | src/rtsp/BasicRTSPOnlySubsession.cpp:179-181 | a port number is kept in 16 bits and is unchanged below 65536 |
| RtspSubsession.GetStreamParameters | src/rtsp/BasicRTSPOnlySubsession.cpp:170-198 | the server RTCP port is RTP + 1; audio ports win when both media are present; each medium of the session records the client; a session with no medium answers nothing |
| RtspSubsession.AdvertisedRtcpMatchesServer | src/rtsp/BasicRTSPOnlySubsession.cpp:94-198 | for ports below 65535 the served description is the media block built from the very ports `getStreamParameters` answers with |
| RtspSubsession.DeleteStream | src/rtsp/BasicRTSPOnlySubsession.cpp:281-342 | the destination of each medium of the session is dropped; the other destination, the SDP and the parameters stay |
| RtspSubsession.SetupThenDeleteClears | src/rtsp/BasicRTSPOnlySubsession.cpp:170-342 | setting a stream up and deleting it leaves no destination for the session's media |
| JpegDepay.EncodeBE16 | src/rtp/rtpdec_jpeg.c:80-81 | the two bytes written for a 16-bit value are read back by `ntohs` as that value |
| JpegDepay.ClearRestart | src/rtp/rtpdec_jpeg.c:156-160 | clearing the RST bit removes bit 6 and keeps every other bit of the type |
| JpegDepay.FragmentOffset | src/rtp/rtpdec_jpeg.c:208-210 | the fragment offset is a 24-bit value |
| JpegDepay.ParseMainHeader | src/rtp/rtpdec_jpeg.c:141-146 | the main header's type and Q are bytes 4 and 5 and its offset fits 24 bits |
| JpegDepay.MainHeaderRoundTrip | src/rtp/rtpdec_jpeg.c:141-146 | a main header written with any 24-bit offset is parsed back, whatever follows it |
| JpegDepay.ParseRestartInterval | src/rtp/rtpdec_jpeg.c:77-91 | exactly 4 bytes are consumed; the interval is the first big-endian word; F, L and the 14-bit count recompose the second word |
| JpegDepay.RestartRoundTrip | src/rtp/rtpdec_jpeg.c:77-91 | encoding a restart marker header and parsing it at any position give it back |
| JpegDepay.CreateJpegFrame | src/rtp/rtpdec_jpeg.c:135-180 | the frame size is the header sizes times 8; the restart interval is read only with the RST bit, which is then cleared; the headers end at byte 8 or 12; the `assert` on the type fails exactly when the cleared type is above 1; short packets are reads past the end |
| JpegDepay.SkipJpegHeaders | src/rtp/rtpdec_jpeg.c:182-192 | the headers are skipped to byte 12 exactly when the RST bit is set, to byte 8 otherwise |
| JpegDepay.SkipMatchesCreate | src/rtp/rtpdec_jpeg.c:182-192 | skipping the headers ends where creating the frame from them ends |
| JpegDepay.CreateFromEncoded | src/rtp/rtpdec_jpeg.c:135-162 | a header written by a sender describes the frame created from it |
| JpegDepay.ParseQuantTables | src/rtp/rtpdec_jpeg.c:93-133 | the position always moves past `4 + length`; a set table or a zero length leaves the store as it was; otherwise 64 or 128 bytes at precision 0 become the tables of Q, the first one standing in for a missing second, and Q is marked set; any other length or precision fails the `assert` |
| JpegDepay.QuantSetMonotone | src/rtp/rtpdec_jpeg.c:107-132 | parsing tables never unsets a table |
| JpegDepay.Write | src/rtp/rtpdec_jpeg.c:230 | `memcpy` puts the bytes at their positions and leaves every other position alone |
| JpegDepay.PayloadStart | src/rtp/rtpdec_jpeg.c:226-228 | when every header lies within the packet, the scan data starts within the packet, after the 8-byte main header |
| JpegDepay.DecodePacket | src/rtp/rtpdec_jpeg.c:204-236 | a decoded packet's scan data lands at its fragment offset after the writer's headers, and `data_len` becomes the larger of the old one and this packet's end; the first packet of a new frame sets the size and the header length; tables change only through a table-carrying packet; Q is the packet's byte 5 |
| JpegDepay.StartFrame | src/rtp/rtpdec_jpeg.c:212-220 | an existing frame only has its headers skipped; a new one is created from the packet, and the payload starts at the same position either way |
| JpegDepay.ReadTables | src/rtp/rtpdec_jpeg.c:221-224 | tables are parsed only from a packet with fragment offset 0 and Q of at least 128 |
| JpegDepay.CopyPayload | src/rtp/rtpdec_jpeg.c:226-234 | the scan data is copied to its offset and `data_len` is the maximum of the old length and the copy's end |
| JpegDepay.DecodePackets | src/rtp/rtpdec_jpeg.c:204-237 | the loop keeps a valid table store, leaves `not_first_run` alone, and ends with the last packet's Q (255 when there are no packets) |
| JpegDepay.DecodeFrameJpeg | src/rtp/rtpdec_jpeg.c:194-256 | the Q=255 tables are forgotten first; the frame is dropped exactly when no table is set for the last packet's Q; a kept frame gets `not_first_run`, its Q's tables in the DQT segment and 2 more bytes of `data_len` for the EOI marker |
| JpegDepay.EmptyFrameDropped | src/rtp/rtpdec_jpeg.c:199-244 | a frame without packets is dropped |
| JpegDepay.DynamicTablesComeFromPackets | src/rtp/rtpdec_jpeg.c:221-224 | the Q=255 tables become set only through a packet of the run that is a first fragment with Q=255 |
| JpegDepay.DynamicQNeedsTablesInFrame | src/rtp/rtpdec_jpeg.c:200-244 | a kept frame whose last Q is 255 carried its own Q=255 tables; tables of earlier frames are never reused for Q=255 |
| JpegDepay.MaxOf | src/rtp/rtpdec_jpeg.c:233-234 | the running `MAX` is at least every element and the start, and is one of them |
| JpegDepay.MaxOfPermutation | src/rtp/rtpdec_jpeg.c:233-234 | the running `MAX` does not depend on the order of the values |
| JpegDepay.DecodedDataLen | src/rtp/rtpdec_jpeg.c:204-237 | once the frame exists, the decoded `data_len` is the largest of the old length and every packet's offset plus header length plus payload length |
| JpegDepay.DataLenOrderIndependent | src/rtp/rtpdec_jpeg.c:204-237 | once the frame exists, the same packets in any order give the same `data_len` |
| JpegDepay.MapPermutation | src/rtp/rtpdec_jpeg.c:226-234 | mapping packets to their ends turns a permutation of packets into a permutation of ends |
| ScreenWin.ParseValue | src/video_capture/screen_win.c:153-159 | a value is accepted exactly when `strtol` in base 0 consumes all of it; the result is 32-bit; the empty value reads as 0 |
| ScreenWin.ParseToken | src/video_capture/screen_win.c:140-159 | only a token containing `width=`, `height=` or `fps=` can be an assignment; any other token is invalid |
| ScreenWin.ValueFor | src/video_capture/screen_win.c:153-159 | a key is assigned exactly when its value parses, and gets that value |
| ScreenWin.EqualsRejected | src/video_capture/screen_win.c:153-159 | a value containing '=' never parses |
| ScreenWin.ParseTokenIsPrefixReading | src/video_capture/screen_win.c:140-159 | `strstr` with the value at a fixed offset accepts exactly what reading the token as `key=value` accepts, with the same key and value |
| ScreenWin.ProcessVerdicts | src/video_capture/screen_win.c:137-167 | the writes made are the leading tokens' assignments, in order, each accepted by the registry; the result is true exactly when every token was written; on false the next token is invalid or its write was refused |
| ScreenWin.ProcessParams | src/video_capture/screen_win.c:125-171 | a missing or empty option text is true with no writes; otherwise the tokens are processed in order |
| ScreenWin.ProcessOkIffAllStored | src/video_capture/screen_win.c:137-170 | the result is true exactly when every token is a valid assignment whose write succeeds, and then every token was written in order |
| ScreenWin.VerdictsOkIffAllStored | src/video_capture/screen_win.c:137-170 | for any sequence of token verdicts, the loop finishes with true exactly when every verdict is an assignment whose registry write succeeds, and then the writes are the verdicts' assignments in order |
| ScreenWin.WritesBeforeFailureStay | src/video_capture/screen_win.c:137-167 | a failure at token k keeps the k writes before it: processing is not atomic |
| ScreenWin.HeightThenBadToken | src/video_capture/screen_win.c:137-167 | `height=<n>:<bad>` writes the height and then returns false |
| ScreenWin.HeightToken | src/video_capture/screen_win.c:143-159 | `height=<n>` assigns n to `capture_height` |
| ScreenWin.FpsXToken | src/video_capture/screen_win.c:146-159 | `fps=x` names a key but is refused for its value |
| Sdl2Keys.NavOf | src/video_display/sdl2.cpp:232-240 | the six navigation keys are recognised by their SDL key codes, and no other code is |
| Sdl2Keys.ToUpper | src/video_display/sdl2.cpp:227-229 | `toupper` maps 'a'..'z' to 'A'..'Z' and leaves every other code alone |
| Sdl2Keys.TranslateKey | src/video_display/sdl2.cpp:202-241 | a lone Ctrl key is exactly the no-op key; a character key comes only from a non-scancode key without other modifiers, upper-cased under Shift and wrapped in `K_CTRL` exactly under Ctrl; a navigation key comes only from its own key code |
| Sdl2Keys.LocksIgnored | src/video_display/sdl2.cpp:203 | Num Lock and Caps Lock never change the translation |
| Sdl2Keys.LoneCtrlIsNoKey | src/video_display/sdl2.cpp:206-208 | a lone left or right Ctrl key is a no-op whatever else is held |
| Sdl2Keys.OtherModifierUntranslatable | src/video_display/sdl2.cpp:222-224 | any modifier besides Ctrl, Shift and the locks makes the key untranslatable |
| Sdl2Keys.PlainIff | src/video_display/sdl2.cpp:210-231 | a key event gives the character c exactly when it is a non-scancode key without Ctrl or other modifiers and c is its code, upper-cased under Shift |
| Sdl2Keys.ScancodeKeys | src/video_display/sdl2.cpp:232-240 | among scancode keys only the arrows and the page keys translate, each to its own navigation key |
| Sdl2Keys.EventForRoundTrip | src/video_display/sdl2.cpp:202-241 | every character, Ctrl and navigation key is produced by some key event |
| Sdl2Keys.ShiftUppercases | src/video_display/sdl2.cpp:217-230 | Shift upper-cases letters, with or without Ctrl |
| Sdl2Control.ProcessKey | src/video_display/sdl2.cpp:243-261 | exactly 'd', 'f' and 'q' are accepted; 'd' turns deinterlacing on from off and off from on or force, 'f' toggles full screen, 'q' requests exit; any other key changes nothing |
| Sdl2Control.DeinterlaceTwice | src/video_display/sdl2.cpp:246-250 | two 'd' presses restore off and on, but force comes back as on |
| Sdl2Control.FullscreenTwice | src/video_display/sdl2.cpp:251-254 | two 'f' presses restore the state |
| Sdl2Control.ParseCommand | src/video_display/sdl2.cpp:294-305 | a message is a title command exactly when it starts with "win-title ", carrying the rest; otherwise a key command exactly when `sscanf("%d")` succeeds, with a 32-bit key |
| Sdl2Control.CommandRoundTrip | src/video_display/sdl2.cpp:294-297 | every title and every `int` key sent as text is classified back as that command |
| Sdl2Control.HandleMessage | src/video_display/sdl2.cpp:289-307 | the answer is OK exactly for a title or a key `process_key` accepts; "Wrong command" exactly for text that is neither; an error changes nothing; a title command sets the title |
| Sdl2Control.HandleMessages | src/video_display/sdl2.cpp:290-308 | every queued message gets one response, in order |
| Sdl2Control.HandleMessagesSplit | src/video_display/sdl2.cpp:290-308 | processing a batch is processing its two halves in turn |
| Sdl2Control.RejectedMessageChangesNothing | src/video_display/sdl2.cpp:298-305 | a message answered with an error leaves the state as it was, after any earlier messages |
| Sdl2Control.KeyMessageIsKeyPress | src/video_display/sdl2.cpp:297-302 | the message "<n>" acts exactly like the key n and is OK exactly for a local key |
| Sdl2Control.OnKeyDown | src/video_display/sdl2.cpp:309-318 | a key press is consumed exactly when it translates to a character `process_key` accepts; -1 is reported; refused keys are passed on unchanged; only consumed keys change the state |
| Sdl2Control.KeyDownMatchesMessage | src/video_display/sdl2.cpp:297-318 | pressing a character key and sending its code as a message have the same effect, consumed exactly when answered OK |
| Sdl2Control.ShiftDIsForwarded | src/video_display/sdl2.cpp:311-315 | Shift+d is 'D', which the display passes on to keyboard control |
| Sdl2Formats.FindFormat | src/video_display/sdl2.cpp:431-436 | `find_if` finds no entry exactly when no entry has the codec, otherwise a table entry of that codec |
| Sdl2Formats.GetUgToSdlFormat | src/video_display/sdl2.cpp:426-437 | R10k maps to ARGB2101010; the result is UNKNOWN exactly for codecs neither R10k nor in the table; otherwise it is the codec's table entry |
| Sdl2Formats.FormatLookupInverse | src/video_display/sdl2.cpp:412-437 | a codec maps to a known format exactly when that format displays that codec |
| Sdl2Formats.FormatInjective | src/video_display/sdl2.cpp:412-437 | two codecs never share a known SDL format |
| Sdl2Formats.GetSupportedPfs | src/video_display/sdl2.cpp:443-454 | the table's codecs in table order, then R10k exactly when `sdl2-r10k` is given; no duplicates; every listed codec has a format, and every codec with a format is listed unless it is R10k without the parameter |
| Sdl2Options.KindOf | src/video_display/sdl2.cpp:569-619 | each of the twelve token shapes (`d`/`dforce`, `display=`, `driver=`, `fs`, `help`, `novsync`, `nodecorate`, `keep-aspect`, `fixed_size`, `window_flags=`, `pos=`, `renderer=`) takes its own branch, and only that shape does; a token is a wrong option exactly when it has none of the shapes |
| Sdl2Options.ParsePair | src/video_display/sdl2.cpp:591-593 | a `WxH` or `X,Y` pair is read exactly when the separator is present |
| Sdl2Options.ApplyFixedSize | src/video_display/sdl2.cpp:587-595 | `fixed_size` always sets the fixed-size flag and changes nothing else but the size, which changes only for `fixed_size=` with an 'x' |
| Sdl2Options.ApplyWindowFlags | src/video_display/sdl2.cpp:596-603 | `window_flags=` fails exactly when `sscanf("%i")` reads nothing; otherwise the value's low 32 bits are or-ed into the flags |
| Sdl2Options.ApplyPos | src/video_display/sdl2.cpp:604-612 | `pos=` fails exactly without a ','; otherwise only the position changes |
| Sdl2Options.ApplyToken | src/video_display/sdl2.cpp:569-619 | only an unknown option, a bad `window_flags=` or a `pos=` without ',' fails, naming the token; unknown options always fail; help exactly for "help"; `fs`, `novsync`, `keep-aspect` and `fixed_size` set exactly their own flags; only `d`/`dforce` change deinterlacing |
| Sdl2Options.ApplyTokens | src/video_display/sdl2.cpp:566-621 | a failure names one of the tokens, and help needs a "help" token |
| Sdl2Options.ParseOptionsAsWritten | src/video_display/sdl2.cpp:561-621 | a missing or empty option string gives the default state |
| Sdl2Options.ParseOptions | src/video_display/sdl2.cpp:561-621 | a missing or empty option string gives the default state |
| Sdl2Options.ParsersAgreeWithoutDforce | src/video_display/sdl2.cpp:569-570 | the parser as written and the corrected one agree on every option list without "dforce" |
| Sdl2Options.ApplyTokensAppend | src/video_display/sdl2.cpp:566-621 | the loop over two lists is the loop over the first, continued with the second from where it stopped |
| Sdl2Options.HelpStopsParsing | src/video_display/sdl2.cpp:577-580 | "help" after accepted options ends the parse with help, whatever follows |
| Sdl2Options.UnknownOptionFails | src/video_display/sdl2.cpp:615-619 | a failing option after accepted ones fails the whole parse, whatever follows |
| Sdl2Options.DforceTurnsDeinterlacingOff | src/video_display/sdl2.cpp:569-570 | as written, "dforce" switches deinterlacing off, even right after "d" |
| Sdl2Options.DforceForcesDeinterlacing | src/video_display/sdl2.cpp:362 | the corrected parser forces deinterlacing for "dforce", as the help text describes |
| Sdl2Options.ConfigRoundTrip | src/video_display/sdl2.cpp:566-621 | every configuration an option string can express is parsed back from the option string rendered for it |
| Sdl2Pool.PostedAppend | src/video_display/sdl2.cpp:715-719 | the frames in the SDL queue of two batches of events are those of each batch together |
| Sdl2Pool.Getf | src/video_display/sdl2.cpp:677-688 | once the queue is non-empty, `getf` removes exactly its front frame and hands it out |
| Sdl2Pool.Putf | src/video_display/sdl2.cpp:690-722 | a discarded frame goes back to the queue with 0; a frame finding the queue empty is dropped back into it with 1; any other frame, and the NULL frame, is posted with 0 |
| Sdl2Pool.DisplayFrameAsWritten | src/video_display/sdl2.cpp:168-200 | NULL and the last frame displayed change nothing; any other frame goes to the back of the free queue and becomes `last_frame` |
| Sdl2Pool.DisplayNewFrame | src/video_display/sdl2.cpp:195-199 | a new frame goes to the back of the free queue and becomes `last_frame` |
| Sdl2Pool.Redraw | src/video_display/sdl2.cpp:328-335 | the redraw on expose or resize changes nothing in the pool |
| Sdl2Pool.OnNewFrameAsWritten | src/video_display/sdl2.cpp:282-287 | a new-frame event stops the loop exactly when it carries NULL |
| Sdl2Pool.OnNewFrame | src/video_display/sdl2.cpp:282-287 | a new-frame event stops the loop exactly when it carries NULL |
| Sdl2Pool.AsWrittenDiffersOnRepeat | src/video_display/sdl2.cpp:191-193 | the as-written display differs from the corrected one exactly on an event carrying the last frame displayed, and then that frame leaves the pool |
| Sdl2Pool.CleanupFrames | src/video_display/sdl2.cpp:456-465 | `cleanup_frames` forgets `last_frame` and destroys every queued frame |
| Sdl2Pool.LeadingOk | src/video_display/sdl2.cpp:470-475 | the frames made are those before the first texture failure |
| Sdl2Pool.RecreateTextures | src/video_display/sdl2.cpp:467-483 | success exactly when every texture is created, then `BUFFER_COUNT` frames; on failure the frames before the failing texture stay; all frames are fresh, distinct and of the new format; `last_frame` is cleared |
| Sdl2Pool.GetfKeepsBuffers | src/video_display/sdl2.cpp:677-688 | `getf` moves a buffer from the queue to the decoder and loses none |
| Sdl2Pool.PutfKeepsBuffers | src/video_display/sdl2.cpp:690-722 | `putf` moves the decoder's buffer to the queue or the SDL events and loses none |
| Sdl2Pool.EventKeepsBuffers | src/video_display/sdl2.cpp:282-287 | displaying a new frame, kept apart from redraws, loses no buffer |
| Sdl2Pool.StepKeepsBuffers | src/video_display/sdl2.cpp:263-340 | every step of the corrected pool keeps every buffer in exactly one place |
| Sdl2Pool.RunKeepsBuffers | src/video_display/sdl2.cpp:263-340 | every run of the corrected pool keeps every buffer in exactly one place |
| Sdl2Pool.DistinctOnce | src/video_display/sdl2.cpp:470-480 | a frame listed once among distinct frames is counted once |
| Sdl2Pool.ReconfigureMakesBuffers | src/video_display/sdl2.cpp:467-483 | a successful reconfiguration leaves exactly `BUFFER_COUNT` distinct buffers of the new format, all free |
| Sdl2Pool.LeakAsWritten | src/video_display/sdl2.cpp:191-199 | as written, the eight-step run with a discard ends with one free buffer and nothing held or posted: a buffer is lost |
| Sdl2Pool.NoLeakCorrected | src/video_display/sdl2.cpp:191-199 | with redraws kept apart, the same run ends with both buffers free |
| Sdl2Reconfigure.CenteredSmallDisplay | src/video_display/sdl2.cpp:510-511 | the centred position of every display index is the SDL mask plus the index, never the undefined position |
| Sdl2Reconfigure.WindowFlags | src/video_display/sdl2.cpp:500-503 | the window keeps the user's flags, is resizable and high-DPI, and is full-screen desktop when requested |
| Sdl2Reconfigure.NewWindow | src/video_display/sdl2.cpp:504-512 | the window has the title parameter or the default title, the fixed width and height when set, otherwise the video's, and the given position or the centred one |
| Sdl2Reconfigure.ReconfigureReal | src/video_display/sdl2.cpp:485-541 | with `fixed_size` and a window, only the logical size and the textures change, and the status is the textures'; otherwise the status is true exactly when window, renderer and textures all succeed; a window exists exactly when its creation succeeded; the display format changes only on success |
| Sdl2Reconfigure.FixedSizeKeepsWindow | src/video_display/sdl2.cpp:492-495 | with `fixed_size`, every reconfiguration after the first success keeps the window |
| Sdl2Reconfigure.WindowFollowsVideo | src/video_display/sdl2.cpp:508-512 | without fixed sizes, a successful reconfiguration makes a window of the video's size |
| Sdl2Reconfigure.ReconfigureFillsPool | src/video_display/sdl2.cpp:534-540 | a successful reconfiguration leaves `BUFFER_COUNT` distinct free frames of the new format and no last frame |
| Sdl2Reconfigure.ReconfigureStatus | src/video_display/sdl2.cpp:485-541 | for every SDL outcome on the full path: when everything succeeds the status is true and the format is new; a window failure leaves no window, the old format and the old pool; a renderer failure leaves no renderer and the old pool |

## Left out

- Threads, the mutex and the condition variables of sdl2.cpp are not modelled. A wait becomes a precondition (the queue is non-empty). The SDL event queue is a sequence of events.
- Sdl2Pool.Putf: `assert(frame != nullptr)` for a discarded frame is a precondition, not an outcome. The other assertions of sdl2.cpp (the magic number, the texture pitch, the registered event type) are left out.
- Sdl2Pool.Putf: a `putf` with a time limit is modelled with the queue as it stands after the wait. How long the wait lasts is not modelled.
- Sdl2Pool.Enabled: a reconfiguration is only taken between frames: no frame held by the decoder and no new-frame event pending. The synchronous wrapper `display_sdl2_reconfigure` (sdl2.cpp:391-410) is not modelled, so concurrent reconfiguration is outside the model.
- All SDL calls are inputs (`Outcome`, `textureOk`) or are left out. This covers rendering, texture locking, `SDL_SetHint`, the renderer's vsync flag, `SDL_Init`, the splash screen, `display_sdl2_done`, `display_sdl2_get_property` and `display_sdl2_probe`.
- The refusal of audio flags at the top of `display_sdl2_init` and everything after its option loop are not modelled. This is because they are SDL setup and key registration.
- Deinterlacing (`vc_deinterlace_ex`) is left out. The deinterlacing mode is tracked, but pixels are not.
- The keep-aspect window resize (sdl2.cpp:321-327) is left out: it is floating-point `sqrt` arithmetic.
- `SDL_QUIT` calling `exit_uv` is left out. So are the logging calls throughout.
- keyboard_control.h is not part of this model, so UltraGrid's `K_*` key values are a datatype (`Sdl2Keys.UgKey`) rather than numbers.
- Sdl2Control.OnKeyDown: Ctrl and navigation keys are passed on without the source's `sym > 0` test and without being offered to `display_sdl2_process_key`. This matches the source only if every `K_CTRL(c)` and `K_*` navigation value is positive and none equals 'd', 'f' or 'q'. Those values live in keyboard_control.h, which is not part of this model.
- `PUTF_*` values come from video_display.h, which is not part of this model. They are the `Timeout` datatype.
- Sdl2Formats.GetUgToSdlFormat: only the table for SDL 2.0.5 or later (RGBA as `SDL_PIXELFORMAT_RGBA32`) is modelled.
- jpeg_writer.h is not part of this model. The length of the headers it writes is the parameter `headerLen`, and the DQT fill is recorded as the tables handed over.
- JpegDepay.DecodePacket: the `memcpy` into the frame buffer is not checked against the buffer size `calloc` gave. Reads past the end of the packet are modelled (`ReadPastEnd`).
- The `type_spec` warning and the verbose messages of rtpdec_jpeg.c are left out.
- `rtp_update`, `rtp_send_ctrl`, `rtp_recv_r` and the payload senders of h264_rtp.cpp are left out. Whether `c_start_server` returns a server is an input of `H264Rtp.SendFrame`. The clock is the `now` argument.
- H264Rtp.RtpTimestampMonotone: monotonicity is stated only before the 32-bit wrap, as the source's 32-bit timestamp can only promise.
- live555 types, `gethostname`, `startStream` and the sender messages of `deleteStream` are left out. Also left out: `get_audio_rtp_pt_rtpmap`, whose payload type and rtpmap line are inputs, and `trackId()`, which is an input.
- RtspSubsession.AdvertisedRtcpMatchesServer: this is stated for RTP ports below 65535 only. At 65535 the SDP advertises `a=rtcp:65536` while live555's 16-bit `Port` answers 0.
- The `snprintf` buffer sizes of `setSDPLines` are not modelled; the text is taken as printed in full.
- `get_exec_path`, `getenv`, `P_tmpdir` and `MAX_PATH_SIZE` are arguments of fs.cpp's functions. `get_temp_file` (I/O) and the Windows `GetTempPathA` branch of `get_temp_dir` are left out.
- Registry access, DLL registration and DirectShow of screen_win.c are left out. `set_key` is the `sinkOk` argument.
- Help and usage printing everywhere is left out.

## Findings

| source | as written | input that shows it | evidently intended | confidence | as-written member | corrected member |
|---|---|---|---|---|---|---|
| src/video_display/sdl2.cpp:569-570 | the option `dforce` sets deinterlacing to off | `-d sdl:dforce`, or `-d sdl:d:dforce`, which turns it off again | `dforce` forces deinterlacing even for progressive video, as the help text at sdl2.cpp:362 describes | not executed; high | Sdl2Options.DforceTurnsDeinterlacingOff | Sdl2Options.DforceForcesDeinterlacing |
| src/video_display/sdl2.cpp:191-199 | `display_frame` takes any frame equal to `last_frame` for a redraw and does not queue it again | see below | a new frame is always returned to the free queue; only the expose/resize redraw skips the queue, so every buffer stays in the pool | not executed; medium | Sdl2Pool.LeakAsWritten | Sdl2Pool.NoLeakCorrected |

The input for the second finding is a two-buffer pool that runs these steps:

1. The decoder takes A, posts it, and A is displayed.
2. The decoder takes B and discards it with `PUTF_DISCARD`. B goes to the back of the queue, behind A.
3. The decoder takes A again and posts it.

A is still `last_frame`, so it is never queued again. One buffer remains, and the next repeat loses that one too, so `getf` then waits forever.

The corrected display (`Sdl2Pool.DisplayNewFrame`) is the one the model's conservation proof uses. `Sdl2Pool.RunKeepsBuffers` proves that it keeps every buffer.
