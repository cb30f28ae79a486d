/**
 The RTP/JPEG depacketiser of src/rtp/rtpdec_jpeg.c (RFC 2435): the main
 JPEG header of every packet (section 3.1), the restart marker header
 (section 3.1.7), the quantization table header (section 3.1.8) and the
 reassembly of one frame from its fragments by their 24-bit offsets.

 A packet is its payload as a sequence of bytes. The JPEG writer of
 utils/jpeg_writer.h, which is not part of this model, is a parameter: the
 number of header bytes it writes for a frame (`headerLen`). Its EOI marker
 is the two bytes FF D9 of ITU-T T.81 and a quantization table is 64 bytes.

 The source reads the packet without checking its length and checks its
 expectations with `assert`. The model makes both visible: a read past the
 end of a packet gives `ReadPastEnd`, a failing `assert` gives
 `AssertionFailure`.
 */
module JpegDepay {
  import opened Text

  newtype byte = x: int | 0 <= x < 0x100

  const QUANT_TAB_T_FIRST_STATIC: nat := 128
  const QUANT_TAB_T_DYN: nat := 255
  const RTP_SZ_MULTIPLIER: nat := 8
  const JPEG_QUANT_SIZE: nat := 64
  const EOI: seq<byte> := [0xFF, 0xD9]

  /** How a step of the depacketiser ends. */
  datatype Outcome<T> = Ok(value: T) | ReadPastEnd | AssertionFailure

  /** `ntohs` of the two bytes at `i`. */
  function BE16(b: seq<byte>, i: nat): (v: nat)
    requires i + 2 <= |b|
    ensures v < 0x1_0000
  {
    b[i] as nat * 0x100 + b[i + 1] as nat
  }

  /** The two bytes `ntohs` reads back as `v`. */
  function EncodeBE16(v: nat): (b: seq<byte>)
    requires v < 0x1_0000
    ensures |b| == 2 && BE16(b, 0) == v
  {
    [(v / 0x100) as byte, (v % 0x100) as byte]
  }

  // ---------------------------------------------------------------------
  // Main JPEG header (section 3.1 of RFC 2435)

  /** The RST bit of the Type field: a restart marker header follows. */
  predicate HasRestart(t: byte) { (t as int / 64) % 2 == 1 }

  /** `type &= ~RTP_TYPE_RST_BIT`. */
  function ClearRestart(t: byte): (r: byte)
    ensures !HasRestart(r)
    ensures r % 64 == t % 64 && r / 128 == t / 128
    ensures HasRestart(t) ==> r == t - 64
    ensures !HasRestart(t) ==> r == t
  {
    if HasRestart(t) then t - 64 else t
  }

  datatype MainHeader = MainHeader(
    typeSpecific: byte,
    fragmentOffset: nat,
    typ: byte,
    q: byte,
    width: byte,    // in units of 8 pixels
    height: byte)

  predicate ValidMainHeader(h: MainHeader) { h.fragmentOffset < 0x100_0000 }

  /** The fragment offset: the low 24 bits of the big-endian first word. */
  function FragmentOffset(b: seq<byte>): (off: nat)
    requires |b| >= 4
    ensures off < 0x100_0000
  {
    b[1] as nat * 0x1_0000 + b[2] as nat * 0x100 + b[3] as nat
  }

  /** The eight bytes of the main header, field by field. */
  function ParseMainHeader(b: seq<byte>): (h: MainHeader)
    requires |b| >= 8
    ensures ValidMainHeader(h)
    ensures h.typ == b[4] && h.q == b[5]
  {
    MainHeader(b[0], FragmentOffset(b), b[4], b[5], b[6], b[7])
  }

  function EncodeMainHeader(h: MainHeader): (b: seq<byte>)
    requires ValidMainHeader(h)
    ensures |b| == 8
  {
    [h.typeSpecific,
     (h.fragmentOffset / 0x1_0000) as byte, (h.fragmentOffset / 0x100 % 0x100) as byte,
     (h.fragmentOffset % 0x100) as byte,
     h.typ, h.q, h.width, h.height]
  }

  /** Reading a header back gives the header that was written, whatever follows it. */
  lemma MainHeaderRoundTrip(h: MainHeader, rest: seq<byte>)
    requires ValidMainHeader(h)
    ensures ParseMainHeader(EncodeMainHeader(h) + rest) == h
  {
    var b := EncodeMainHeader(h) + rest;
    assert b[1] as nat * 0x1_0000 + b[2] as nat * 0x100 + b[3] as nat == h.fragmentOffset;
  }

  // ---------------------------------------------------------------------
  // Restart marker header (section 3.1.7 of RFC 2435)

  /** Restart interval, F (first) and L (last) bits and the 14-bit count. */
  datatype RestartHeader = RestartHeader(interval: nat, first: bool, last: bool, count: nat)

  predicate ValidRestartHeader(h: RestartHeader) { h.interval < 0x1_0000 && h.count < 0x4000 }

  /** `parse_restart_interval`: two big-endian words; the second holds
      F in bit 15, L in bit 14 and the count in the low 14 bits. Returns
      the header and the position after it. */
  function ParseRestartInterval(b: seq<byte>, pos: nat): (r: (RestartHeader, nat))
    requires pos + 4 <= |b|
    ensures r.1 == pos + 4
    ensures ValidRestartHeader(r.0)
    ensures r.0.interval == BE16(b, pos)
    ensures BE16(b, pos + 2) ==
              (if r.0.first then 0x8000 else 0) + (if r.0.last then 0x4000 else 0) + r.0.count
  {
    var tmp := BE16(b, pos + 2);
    (RestartHeader(BE16(b, pos), tmp / 0x8000 == 1, (tmp / 0x4000) % 2 == 1, tmp % 0x4000), pos + 4)
  }

  function EncodeRestartHeader(h: RestartHeader): (b: seq<byte>)
    requires ValidRestartHeader(h)
    ensures |b| == 4
  {
    EncodeBE16(h.interval) +
    EncodeBE16((if h.first then 0x8000 else 0) + (if h.last then 0x4000 else 0) + h.count)
  }

  /** Encoding and parsing a restart marker header are inverse. */
  lemma RestartRoundTrip(h: RestartHeader, front: seq<byte>, rest: seq<byte>)
    requires ValidRestartHeader(h)
    ensures ParseRestartInterval(front + EncodeRestartHeader(h) + rest, |front|) == (h, |front| + 4)
  {
    var e := EncodeRestartHeader(h);
    var b := front + e + rest;
    var word := (if h.first then 0x8000 else 0) + (if h.last then 0x4000 else 0) + h.count;
    assert b[|front|..|front| + 4] == e;
    assert BE16(b, |front|) == BE16(e, 0) == h.interval;
    assert BE16(b, |front| + 2) == BE16(e, 2) == word;
  }

  // ---------------------------------------------------------------------
  // Frame creation and header skipping

  /** The fields of `jpeg_writer_data` that `create_jpeg_frame` fills in. */
  datatype WriterInfo = WriterInfo(width: nat, height: nat, restartInterval: nat, subsampling: nat)

  /** The header part of `create_jpeg_frame`: the frame size is the header
      size times 8; a set RST bit brings a restart marker header and is
      cleared, after which the type must be 0 or 1. Returns the writer's
      parameters and the position after the headers. */
  function CreateJpegFrame(b: seq<byte>): (r: Outcome<(WriterInfo, nat)>)
    ensures |b| < 8 ==> r == ReadPastEnd
    ensures r.Ok? ==>
              var h := ParseMainHeader(b);
              && r.value.0.width == h.width as nat * RTP_SZ_MULTIPLIER
              && r.value.0.height == h.height as nat * RTP_SZ_MULTIPLIER
              && r.value.0.subsampling == ClearRestart(h.typ) as nat
              && r.value.0.subsampling <= 1
              && r.value.1 == (if HasRestart(h.typ) then 12 else 8)
              && r.value.1 <= |b|
              && (HasRestart(h.typ) ==> r.value.0.restartInterval == BE16(b, 8))
              && (!HasRestart(h.typ) ==> r.value.0.restartInterval == 0)
    ensures r == AssertionFailure <==>
              |b| >= 8 && (HasRestart(b[4]) ==> |b| >= 12) && ClearRestart(b[4]) > 1
  {
    if |b| < 8 then ReadPastEnd
    else
      var h := ParseMainHeader(b);
      var width := h.width as nat * RTP_SZ_MULTIPLIER;
      var height := h.height as nat * RTP_SZ_MULTIPLIER;
      if HasRestart(h.typ) && |b| < 12 then ReadPastEnd
      else
        var interval := if HasRestart(h.typ) then ParseRestartInterval(b, 8).0.interval else 0;
        var pos: nat := if HasRestart(h.typ) then 12 else 8;
        var typ := ClearRestart(h.typ);
        if typ != 0 && typ != 1 then AssertionFailure
        else Ok((WriterInfo(width, height, interval, typ as nat), pos))
  }

  /** `skip_jpeg_headers`: the position after the main header and, when the
      RST bit is set, the restart marker header. */
  function SkipJpegHeaders(b: seq<byte>): (pos: nat)
    requires |b| >= 5
    ensures pos == 8 || pos == 12
    ensures pos == 12 <==> HasRestart(b[4])
  {
    8 + (if HasRestart(b[4]) then 4 else 0)
  }

  /** Whether a frame is created or its headers skipped, the payload
      continues at the same position. */
  lemma SkipMatchesCreate(b: seq<byte>)
    requires CreateJpegFrame(b).Ok?
    ensures SkipJpegHeaders(b) == CreateJpegFrame(b).value.1
  {
  }

  /** A header written by a sender reads back as the frame it describes. */
  lemma CreateFromEncoded(h: MainHeader, rest: seq<byte>)
    requires ValidMainHeader(h) && !HasRestart(h.typ) && h.typ <= 1
    ensures CreateJpegFrame(EncodeMainHeader(h) + rest)
            == Ok((WriterInfo(h.width as nat * 8, h.height as nat * 8, 0, h.typ as nat), 8))
  {
    MainHeaderRoundTrip(h, rest);
  }

  // ---------------------------------------------------------------------
  // Quantization tables (section 3.1.8 of RFC 2435)

  /** `quantization_tables[q]`: the two 64-byte tables for one Q. */
  datatype QuantTable = QuantTable(luma: seq<byte>, chroma: seq<byte>)

  /** The per-Q tables and their "set" flags, 256 of each. */
  datatype QuantStore = QuantStore(isSet: seq<bool>, tables: seq<QuantTable>)

  predicate ValidStore(s: QuantStore) {
    && |s.isSet| == 256 && |s.tables| == 256
    && forall q :: 0 <= q < 256 ==>
         |s.tables[q].luma| == JPEG_QUANT_SIZE && |s.tables[q].chroma| == JPEG_QUANT_SIZE
  }

  /** `parse_quant_tables`: a four-byte header (MBZ, precision, length). A
      table already set for `q`, or a length of 0, is skipped; otherwise 64
      or 128 bytes at precision 0 are copied, the first table standing in for
      the second when there is only one, and `q` is marked set. Either way
      the position moves past `4 + length` bytes. */
  function ParseQuantTables(s: QuantStore, b: seq<byte>, pos: nat, q: nat): (r: Outcome<(QuantStore, nat)>)
    requires ValidStore(s)
    requires QUANT_TAB_T_FIRST_STATIC <= q < 256
    ensures pos + 4 > |b| ==> r == ReadPastEnd
    ensures r.Ok? ==> ValidStore(r.value.0)
    ensures r.Ok? ==> r.value.1 == pos + 4 + BE16(b, pos + 2)
    ensures r.Ok? && (s.isSet[q] || BE16(b, pos + 2) == 0) ==> r.value.0 == s
    ensures r.Ok? && !s.isSet[q] && BE16(b, pos + 2) != 0 ==>
              var length := BE16(b, pos + 2);
              var t := r.value.0.tables[q];
              && b[pos + 1] == 0
              && r.value.1 <= |b|
              && (length == JPEG_QUANT_SIZE || length == 2 * JPEG_QUANT_SIZE)
              && r.value.0.isSet == s.isSet[q := true]
              && r.value.0.tables == s.tables[q := t]
              && t.luma == b[pos + 4..pos + 4 + JPEG_QUANT_SIZE]
              && (length == 2 * JPEG_QUANT_SIZE ==> t.chroma == b[pos + 4 + JPEG_QUANT_SIZE..pos + 4 + length])
              && (length == JPEG_QUANT_SIZE ==> t.chroma == t.luma)
    ensures r == AssertionFailure <==>
              && pos + 4 <= |b| && !s.isSet[q] && BE16(b, pos + 2) != 0
              && (BE16(b, pos + 2) !in {JPEG_QUANT_SIZE, 2 * JPEG_QUANT_SIZE} || b[pos + 1] != 0)
  {
    if pos + 4 > |b| then ReadPastEnd
    else
      var precision := b[pos + 1];
      var length := BE16(b, pos + 2);
      var next := pos + 4 + length;
      if s.isSet[q] || length == 0 then Ok((s, next))
      else if length != JPEG_QUANT_SIZE && length != 2 * JPEG_QUANT_SIZE then AssertionFailure
      else if precision != 0 then AssertionFailure
      else if next > |b| then ReadPastEnd
      else
        var luma := b[pos + 4..pos + 4 + JPEG_QUANT_SIZE];
        var chroma := if length == 2 * JPEG_QUANT_SIZE then b[pos + 4 + JPEG_QUANT_SIZE..next] else luma;
        Ok((QuantStore(s.isSet[q := true], s.tables[q := QuantTable(luma, chroma)]), next))
  }

  /** Tables are never unset by parsing. */
  lemma QuantSetMonotone(s: QuantStore, b: seq<byte>, pos: nat, q: nat, k: nat)
    requires ValidStore(s) && QUANT_TAB_T_FIRST_STATIC <= q < 256 && k < 256
    requires ParseQuantTables(s, b, pos, q).Ok?
    requires s.isSet[k]
    ensures ParseQuantTables(s, b, pos, q).value.0.isSet[k]
  {
  }

  // ---------------------------------------------------------------------
  // Reassembly

  /** `tiles[0]`: its size, the bytes written so far (position -> byte;
      positions never written hold whatever the allocation held) and
      `data_len`. */
  datatype Tile = Tile(width: nat, height: nat, data: map<nat, byte>, dataLen: nat)

  /** The per-stream decoder state (`decode_data_rtsp`): the tables, the
      `not_first_run` flag, `offset_len` (header bytes in front of the scan
      data) and the frame under construction. `filledDqt` records the
      tables handed to `jpeg_writer_fill_dqt`. */
  datatype DecoderState = DecoderState(
    store: QuantStore,
    notFirstRun: bool,
    offsetLen: nat,
    tile: Tile,
    filledDqt: Option<QuantTable>)

  /** `memcpy(data + at, bytes, |bytes|)`. */
  function Write(data: map<nat, byte>, at: nat, bytes: seq<byte>): (d: map<nat, byte>)
    ensures forall p :: at <= p < at + |bytes| ==> p in d && d[p] == bytes[p - at]
    ensures forall p :: p in data && !(at <= p < at + |bytes|) ==> p in d && d[p] == data[p]
    ensures forall p :: p in d ==> p in data || at <= p < at + |bytes|
    decreases |bytes|
  {
    if |bytes| == 0 then data else Write(data[at := bytes[0]], at + 1, bytes[1..])
  }

  /** Whether a packet carries quantization tables: the first fragment of
      a frame with Q at least 128. */
  predicate CarriesTables(b: seq<byte>)
    requires |b| >= 6
  {
    FragmentOffset(b) == 0 && b[5] as nat >= QUANT_TAB_T_FIRST_STATIC
  }

  /** Where the scan data of a packet starts, when every header the
      decoder reads lies within the packet. */
  function PayloadStart(b: seq<byte>): (r: Option<nat>)
    ensures r.Some? ==> |b| >= 8 && r.value <= |b|
  {
    if |b| < 6 then None
    else
      var skip := SkipJpegHeaders(b);
      if CarriesTables(b) then
        if skip + 4 > |b| then None
        else
          var p := skip + 4 + BE16(b, skip + 2);
          if p > |b| then None else Some(p)
      else if skip > |b| then None else Some(skip)
  }

  /** Where the scan data of a packet ends in the frame buffer. */
  function PacketEnd(b: seq<byte>, offsetLen: nat): (e: nat)
    ensures PayloadStart(b).Some? ==> e >= offsetLen + FragmentOffset(b)
  {
    match PayloadStart(b)
    case Some(start) => FragmentOffset(b) + offsetLen + (|b| - start)
    case None => 0
  }

  /** One iteration of the loop of `decode_frame_jpeg`: create the frame on
      the first packet of a frame whose width is still 0 (the writer puts
      `headerLen(info)` bytes in front), skip the headers otherwise, parse
      the tables of a table-carrying packet, then copy the rest of the
      packet to its fragment offset after the headers. Returns the new
      state and the packet's Q. */
  function DecodePacket(st: DecoderState, b: seq<byte>, headerLen: WriterInfo -> nat)
    : (r: Outcome<(DecoderState, byte)>)
    requires ValidStore(st.store)
    ensures r.Ok? ==> ValidStore(r.value.0.store)
    ensures r.Ok? ==> PayloadStart(b).Some? && r.value.1 == b[5]
    ensures r.Ok? ==>
              var st' := r.value.0;
              var start := PayloadStart(b).value;
              var at := FragmentOffset(b) + st'.offsetLen;
              && st'.tile.dataLen == Max(st.tile.dataLen, PacketEnd(b, st'.offsetLen))
              && (forall p :: at <= p < at + (|b| - start) ==> p in st'.tile.data && st'.tile.data[p] == b[start + (p - at)])
    ensures r.Ok? && st.tile.width != 0 ==>
              var st' := r.value.0;
              st'.offsetLen == st.offsetLen && st'.tile.width == st.tile.width && st'.tile.height == st.tile.height
    ensures r.Ok? && st.tile.width == 0 ==>
              var st' := r.value.0;
              CreateJpegFrame(b).Ok? && st'.offsetLen == headerLen(CreateJpegFrame(b).value.0)
              && st'.tile.width == b[6] as nat * 8 && st'.tile.height == b[7] as nat * 8
    ensures r.Ok? && !CarriesTables(b) ==> r.value.0.store == st.store
    ensures r.Ok? ==> r.value.0.notFirstRun == st.notFirstRun && r.value.0.filledDqt == st.filledDqt
    ensures |b| < 6 ==> r == ReadPastEnd
  {
    if |b| < 6 then ReadPastEnd
    else
      match StartFrame(st, b, headerLen)
      case ReadPastEnd => ReadPastEnd
      case AssertionFailure => AssertionFailure
      case Ok((st1, pos1)) =>
        match ReadTables(st1.store, b, pos1)
        case ReadPastEnd => ReadPastEnd
        case AssertionFailure => AssertionFailure
        case Ok((store, pos)) =>
          if pos > |b| then ReadPastEnd
          else
            var at := FragmentOffset(b) + st1.offsetLen;
            Ok((st1.(store := store, tile := CopyPayload(st1.tile, at, b[pos..])), b[5]))
  }

  /** The branch on the frame width: `create_jpeg_frame` for a frame not
      yet created, `skip_jpeg_headers` otherwise. The position after the
      headers is the same either way. */
  function StartFrame(st: DecoderState, b: seq<byte>, headerLen: WriterInfo -> nat)
    : (r: Outcome<(DecoderState, nat)>)
    requires |b| >= 6
    ensures r.Ok? ==> r.value.1 == SkipJpegHeaders(b)
    ensures r.Ok? ==>
              var st1 := r.value.0;
              && st1.store == st.store && st1.notFirstRun == st.notFirstRun && st1.filledDqt == st.filledDqt
              && st1.tile.dataLen == st.tile.dataLen
    ensures st.tile.width != 0 ==> r == Ok((st, SkipJpegHeaders(b)))
    ensures r.Ok? && st.tile.width == 0 ==>
              && CreateJpegFrame(b).Ok?
              && r.value.0.offsetLen == headerLen(CreateJpegFrame(b).value.0)
              && r.value.0.tile.width == b[6] as nat * 8 && r.value.0.tile.height == b[7] as nat * 8
  {
    if st.tile.width != 0 then Ok((st, SkipJpegHeaders(b)))
    else
      match CreateJpegFrame(b)
      case Ok((info, pos)) =>
        Ok((st.(tile := Tile(info.width, info.height, map[], st.tile.dataLen), offsetLen := headerLen(info)), pos))
      case ReadPastEnd => ReadPastEnd
      case AssertionFailure => AssertionFailure
  }

  /** The tables of a table-carrying packet, the store unchanged otherwise. */
  function ReadTables(s: QuantStore, b: seq<byte>, pos: nat): (r: Outcome<(QuantStore, nat)>)
    requires ValidStore(s) && |b| >= 6
    ensures r.Ok? ==> ValidStore(r.value.0)
    ensures !CarriesTables(b) ==> r == Ok((s, pos))
    ensures CarriesTables(b) ==> r == ParseQuantTables(s, b, pos, b[5] as nat)
  {
    if CarriesTables(b) then ParseQuantTables(s, b, pos, b[5] as nat) else Ok((s, pos))
  }

  /** The `memcpy` of the scan data and the `MAX` update of `data_len`. */
  function CopyPayload(t: Tile, at: nat, payload: seq<byte>): (t': Tile)
    ensures t'.width == t.width && t'.height == t.height
    ensures t'.dataLen == Max(t.dataLen, at + |payload|)
    ensures forall p :: at <= p < at + |payload| ==> p in t'.data && t'.data[p] == payload[p - at]
  {
    t.(data := Write(t.data, at, payload), dataLen := Max(t.dataLen, at + |payload|))
  }

  function Max(a: nat, b: nat): (m: nat)
    ensures m >= a && m >= b && (m == a || m == b)
  {
    if a >= b then a else b
  }

  /** The loop of `decode_frame_jpeg` over the packets of one frame, in
      arrival order, threading the last packet's Q. */
  function DecodePackets(st: DecoderState, pkts: seq<seq<byte>>, q: byte, headerLen: WriterInfo -> nat)
    : (r: Outcome<(DecoderState, byte)>)
    requires ValidStore(st.store)
    ensures r.Ok? ==> ValidStore(r.value.0.store)
    ensures r.Ok? ==> r.value.0.notFirstRun == st.notFirstRun && r.value.0.filledDqt == st.filledDqt
    ensures r.Ok? && |pkts| == 0 ==> r.value == (st, q)
    ensures r.Ok? && |pkts| > 0 ==> |pkts[|pkts| - 1]| >= 6 && r.value.1 == pkts[|pkts| - 1][5]
    decreases |pkts|
  {
    if |pkts| == 0 then Ok((st, q))
    else
      match DecodePacket(st, pkts[0], headerLen)
      case ReadPastEnd => ReadPastEnd
      case AssertionFailure => AssertionFailure
      case Ok((st1, q1)) => DecodePackets(st1, pkts[1..], q1, headerLen)
  }

  /** `decode_frame_jpeg`: the Q=255 tables are forgotten before the
      packets are read (they must come with every frame); Q starts as 255
      (`uint8_t q = -1`). The frame is dropped (false) exactly when no table
      is set for the Q of the last packet; otherwise the tables are handed
      to the writer's DQT segment, the EOI marker is appended and
      `not_first_run` is set. */
  function DecodeFrameJpeg(st: DecoderState, pkts: seq<seq<byte>>, headerLen: WriterInfo -> nat)
    : (r: Outcome<(DecoderState, bool)>)
    requires ValidStore(st.store)
    ensures r.Ok? ==>
              var cleared := st.(store := st.store.(isSet := st.store.isSet[QUANT_TAB_T_DYN := false]));
              var looped := DecodePackets(cleared, pkts, QUANT_TAB_T_DYN as byte, headerLen);
              && looped.Ok?
              && var (mid, q) := looped.value;
              && (r.value.1 <==> mid.store.isSet[q])
              && (!r.value.1 ==> r.value.0 == mid)
              && (r.value.1 ==>
                    && r.value.0.notFirstRun
                    && r.value.0.tile.dataLen == mid.tile.dataLen + |EOI|
                    && r.value.0.filledDqt == Some(mid.store.tables[q])
                    && r.value.0.store == mid.store
                    && r.value.0.offsetLen == mid.offsetLen)
    ensures r.Ok? || DecodePackets(st.(store := st.store.(isSet := st.store.isSet[QUANT_TAB_T_DYN := false])),
                                   pkts, QUANT_TAB_T_DYN as byte, headerLen).Ok? == false
  {
    var cleared := st.(store := st.store.(isSet := st.store.isSet[QUANT_TAB_T_DYN := false]));
    match DecodePackets(cleared, pkts, QUANT_TAB_T_DYN as byte, headerLen)
    case ReadPastEnd => ReadPastEnd
    case AssertionFailure => AssertionFailure
    case Ok((mid, q)) =>
      if !mid.store.isSet[q] then Ok((mid, false))
      else
        var tile := mid.tile.(data := Write(mid.tile.data, mid.tile.dataLen, EOI),
                              dataLen := mid.tile.dataLen + |EOI|);
        Ok((mid.(tile := tile, filledDqt := Some(mid.store.tables[q]), notFirstRun := true), true))
  }

  // ---------------------------------------------------------------------
  // Properties of a whole frame

  /** A frame without packets is dropped: Q stays 255 and its tables were
      just forgotten. */
  lemma EmptyFrameDropped(st: DecoderState, headerLen: WriterInfo -> nat)
    requires ValidStore(st.store)
    ensures DecodeFrameJpeg(st, [], headerLen) ==
              Ok((st.(store := st.store.(isSet := st.store.isSet[QUANT_TAB_T_DYN := false])), false))
  {
  }

  /** Whether some packet is a first fragment carrying Q=255 tables. */
  predicate SomeDynamicTables(pkts: seq<seq<byte>>) {
    exists i :: 0 <= i < |pkts| && |pkts[i]| >= 6 && FragmentOffset(pkts[i]) == 0 && pkts[i][5] == 0xFF
  }

  /** Over a run of packets, the Q=255 tables become set only through a
      packet that is the first fragment with Q=255. */
  lemma {:induction false} DynamicTablesComeFromPackets(st: DecoderState, pkts: seq<seq<byte>>, q: byte,
                                                         headerLen: WriterInfo -> nat)
    requires ValidStore(st.store)
    requires DecodePackets(st, pkts, q, headerLen).Ok?
    requires !st.store.isSet[QUANT_TAB_T_DYN]
    ensures DecodePackets(st, pkts, q, headerLen).value.0.store.isSet[QUANT_TAB_T_DYN] ==> SomeDynamicTables(pkts)
    decreases |pkts|
  {
    if |pkts| > 0 {
      var (st1, q1) := DecodePacket(st, pkts[0], headerLen).value;
      if st1.store.isSet[QUANT_TAB_T_DYN] {
        assert CarriesTables(pkts[0]);
        assert pkts[0][5] == 0xFF;
        assert SomeDynamicTables(pkts) by { assert 0 < |pkts|; }
      } else {
        DynamicTablesComeFromPackets(st1, pkts[1..], q1, headerLen);
        if DecodePackets(st, pkts, q, headerLen).value.0.store.isSet[QUANT_TAB_T_DYN] {
          var i :| 0 <= i < |pkts[1..]| && |pkts[1..][i]| >= 6 && FragmentOffset(pkts[1..][i]) == 0
                   && pkts[1..][i][5] == 0xFF;
          assert pkts[i + 1] == pkts[1..][i];
        }
      }
    }
  }

  /** A frame whose last packet has Q=255 is kept only if one of its own
      packets brought the Q=255 tables: tables from earlier frames are
      never reused for Q=255. */
  lemma DynamicQNeedsTablesInFrame(st: DecoderState, pkts: seq<seq<byte>>, headerLen: WriterInfo -> nat)
    requires ValidStore(st.store)
    requires DecodeFrameJpeg(st, pkts, headerLen).Ok?
    requires |pkts| > 0 && |pkts[|pkts| - 1]| >= 6 && pkts[|pkts| - 1][5] == 0xFF
    requires DecodeFrameJpeg(st, pkts, headerLen).value.1
    ensures SomeDynamicTables(pkts)
  {
    var cleared := st.(store := st.store.(isSet := st.store.isSet[QUANT_TAB_T_DYN := false]));
    DynamicTablesComeFromPackets(cleared, pkts, QUANT_TAB_T_DYN as byte, headerLen);
  }

  /** The largest of `acc` and the elements of `xs`, taken left to right as
      the decoder's `MAX` does. */
  function MaxOf(acc: nat, xs: seq<nat>): (m: nat)
    ensures m >= acc
    ensures forall i :: 0 <= i < |xs| ==> m >= xs[i]
    ensures m == acc || m in xs
    decreases |xs|
  {
    if |xs| == 0 then acc else MaxOf(Max(acc, xs[0]), xs[1..])
  }

  /** The maximum depends only on which values occur, not on their order. */
  lemma MaxOfPermutation(acc: nat, xs: seq<nat>, ys: seq<nat>)
    requires multiset(xs) == multiset(ys)
    ensures MaxOf(acc, xs) == MaxOf(acc, ys)
  {
    var mx := MaxOf(acc, xs);
    var my := MaxOf(acc, ys);
    if mx != acc {
      assert mx in multiset(ys);
      var j :| 0 <= j < |ys| && ys[j] == mx;
    }
    if my != acc {
      assert my in multiset(xs);
      var i :| 0 <= i < |xs| && xs[i] == my;
    }
  }

  predicate AllPayloadsReadable(pkts: seq<seq<byte>>) {
    forall i :: 0 <= i < |pkts| ==> PayloadStart(pkts[i]).Some?
  }

  /** The end of every packet's scan data in the frame buffer. */
  function PacketEnds(pkts: seq<seq<byte>>, offsetLen: nat): (es: seq<nat>)
    ensures es == MapNat(pkts, b => PacketEnd(b, offsetLen))
  {
    MapNat(pkts, b => PacketEnd(b, offsetLen))
  }

  /** `f` applied to every element. */
  function MapNat<T>(xs: seq<T>, f: T -> nat): (ys: seq<nat>)
    ensures |ys| == |xs|
    ensures forall i :: 0 <= i < |xs| ==> ys[i] == f(xs[i])
  {
    seq(|xs|, i requires 0 <= i < |xs| => f(xs[i]))
  }

  /** Once the frame exists, the decoded `data_len` is the largest packet
      end (and the length before the frame). */
  lemma {:induction false} DecodedDataLen(st: DecoderState, pkts: seq<seq<byte>>, q: byte,
                                          headerLen: WriterInfo -> nat)
    requires ValidStore(st.store) && st.tile.width != 0
    requires DecodePackets(st, pkts, q, headerLen).Ok?
    ensures AllPayloadsReadable(pkts)
    ensures DecodePackets(st, pkts, q, headerLen).value.0.offsetLen == st.offsetLen
    ensures DecodePackets(st, pkts, q, headerLen).value.0.tile.width == st.tile.width
    ensures DecodePackets(st, pkts, q, headerLen).value.0.tile.dataLen
            == MaxOf(st.tile.dataLen, PacketEnds(pkts, st.offsetLen))
    decreases |pkts|
  {
    if |pkts| > 0 {
      var (st1, q1) := DecodePacket(st, pkts[0], headerLen).value;
      DecodedDataLen(st1, pkts[1..], q1, headerLen);
      assert PacketEnds(pkts, st.offsetLen)[1..] == PacketEnds(pkts[1..], st.offsetLen);
      assert AllPayloadsReadable(pkts) by {
        forall i | 0 <= i < |pkts| ensures PayloadStart(pkts[i]).Some? {
          if i > 0 { assert pkts[i] == pkts[1..][i - 1]; }
        }
      }
    }
  }

  /** Reassembly does not depend on arrival order: the same packets in any
      order give the same `data_len`. */
  lemma DataLenOrderIndependent(st: DecoderState, pkts1: seq<seq<byte>>, pkts2: seq<seq<byte>>, q: byte,
                                headerLen: WriterInfo -> nat)
    requires ValidStore(st.store) && st.tile.width != 0
    requires multiset(pkts1) == multiset(pkts2)
    requires DecodePackets(st, pkts1, q, headerLen).Ok? && DecodePackets(st, pkts2, q, headerLen).Ok?
    ensures DecodePackets(st, pkts1, q, headerLen).value.0.tile.dataLen
            == DecodePackets(st, pkts2, q, headerLen).value.0.tile.dataLen
  {
    DecodedDataLen(st, pkts1, q, headerLen);
    DecodedDataLen(st, pkts2, q, headerLen);
    PermutedEnds(pkts1, pkts2, st.offsetLen);
    MaxOfPermutation(st.tile.dataLen, PacketEnds(pkts1, st.offsetLen), PacketEnds(pkts2, st.offsetLen));
  }

  /** Permuting the packets permutes their ends. */
  lemma PermutedEnds(pkts1: seq<seq<byte>>, pkts2: seq<seq<byte>>, offsetLen: nat)
    requires multiset(pkts1) == multiset(pkts2)
    ensures multiset(PacketEnds(pkts1, offsetLen)) == multiset(PacketEnds(pkts2, offsetLen))
  {
    MapPermutation(pkts1, pkts2, b => PacketEnd(b, offsetLen));
  }

  /** Mapping a function over two permutations of each other gives two
      permutations of each other. */
  lemma {:induction false} MapPermutation<T>(xs: seq<T>, ys: seq<T>, f: T -> nat)
    requires multiset(xs) == multiset(ys)
    ensures multiset(MapNat(xs, f)) == multiset(MapNat(ys, f))
    decreases |xs|
  {
    if |xs| > 0 {
      var j := Occurrence(xs[0], ys);
      var xr := xs[1..];
      var yr := ys[..j] + ys[j + 1..];
      RemoveOne(xs, ys, j);
      MapPermutation(xr, yr, f);
      MapOfTail(xs, f);
      MapAfterRemoval(ys, j, f);
      var e := multiset{f(xs[0])};
      calc {
        multiset(MapNat(xs, f));
        multiset(MapNat(xr, f)) + e;
        multiset(MapNat(yr, f)) + e;
        multiset(MapNat(ys, f));
      }
    } else {
      assert |ys| == 0;
    }
  }

  /** A position of an element of the multiset of a sequence. */
  lemma Occurrence<T>(x: T, ys: seq<T>) returns (j: nat)
    requires x in multiset(ys)
    ensures j < |ys| && ys[j] == x
  {
    j :| 0 <= j < |ys| && ys[j] == x;
  }

  /** Taking the same element out of two permutations of each other
      leaves permutations of each other. */
  lemma RemoveOne<T>(xs: seq<T>, ys: seq<T>, j: nat)
    requires multiset(xs) == multiset(ys)
    requires |xs| > 0 && j < |ys| && ys[j] == xs[0]
    ensures multiset(xs[1..]) == multiset(ys[..j] + ys[j + 1..])
  {
    var p := xs[0];
    assert xs == [p] + xs[1..];
    assert ys == ys[..j] + [p] + ys[j + 1..];
    var a := multiset(xs[1..]);
    var b := multiset(ys[..j] + ys[j + 1..]);
    forall x ensures a[x] == b[x] {
      assert multiset(xs)[x] == a[x] + multiset{p}[x];
      assert multiset(ys)[x] == multiset(ys[..j])[x] + multiset{p}[x] + multiset(ys[j + 1..])[x];
      assert b[x] == multiset(ys[..j])[x] + multiset(ys[j + 1..])[x];
    }
  }

  lemma MapOfTail<T>(xs: seq<T>, f: T -> nat)
    requires |xs| > 0
    ensures multiset(MapNat(xs, f)) == multiset(MapNat(xs[1..], f)) + multiset{f(xs[0])}
  {
    var es := MapNat(xs, f);
    assert es == [es[0]] + es[1..];
    assert MapNat(xs[1..], f) == es[1..];
  }

  lemma MapAfterRemoval<T>(xs: seq<T>, j: nat, f: T -> nat)
    requires j < |xs|
    ensures multiset(MapNat(xs, f)) == multiset(MapNat(xs[..j] + xs[j + 1..], f)) + multiset{f(xs[j])}
  {
    var es := MapNat(xs, f);
    assert es == es[..j] + [es[j]] + es[j + 1..];
    assert MapNat(xs[..j] + xs[j + 1..], f) == es[..j] + es[j + 1..];
  }
}
