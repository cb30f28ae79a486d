/**
 The pixel-format table of src/video_display/sdl2.cpp (`pf_mapping`),
 its lookup `get_ug_to_sdl_format` and the codec list
 `get_supported_pfs` the display advertises.

 SDL's pixel-format numbers are macros of SDL_pixels.h; the model keeps
 their names. The table is the one compiled against SDL 2.0.5 or later,
 where RGBA maps to `SDL_PIXELFORMAT_RGBA32`. Whether the `sdl2-r10k`
 command-line parameter is set is the `r10kParam` argument.
 */
module Sdl2Formats {
  import C = Codecs
  import opened Text

  datatype PixelFormat = UNKNOWN | IYUV | UYVY | YUY2 | RGB24 | BGR24 | RGBA32 | ARGB2101010

  /** `pf_mapping`: codec and SDL format, in table order. */
  const PF_MAPPING: seq<(C.Codec, PixelFormat)> :=
    [(C.I420, IYUV), (C.UYVY, UYVY), (C.YUYV, YUY2), (C.RGB, RGB24), (C.BGR, BGR24), (C.RGBA, RGBA32)]

  predicate InTable(c: C.Codec) {
    exists i :: 0 <= i < |PF_MAPPING| && PF_MAPPING[i].0 == c
  }

  /** `find_if` over a table: the format of the first entry for `c`. */
  function FindFormat(table: seq<(C.Codec, PixelFormat)>, c: C.Codec): (r: Option<PixelFormat>)
    ensures r.None? <==> forall i :: 0 <= i < |table| ==> table[i].0 != c
    ensures r.Some? ==> exists i :: 0 <= i < |table| && table[i] == (c, r.value)
  {
    if |table| == 0 then None
    else if table[0].0 == c then Some(table[0].1)
    else FindFormat(table[1..], c)
  }

  /** `get_ug_to_sdl_format`: R10k first, then the table, else UNKNOWN. */
  function GetUgToSdlFormat(c: C.Codec): (f: PixelFormat)
    ensures c == C.R10k ==> f == ARGB2101010
    ensures f == UNKNOWN <==> c != C.R10k && !InTable(c)
    ensures f != UNKNOWN && c != C.R10k ==> (c, f) in PF_MAPPING
  {
    if c == C.R10k then ARGB2101010
    else
      match FindFormat(PF_MAPPING, c)
      case Some(f) => f
      case None => UNKNOWN
  }

  /** The codec an SDL format displays, read from the table backwards. */
  function SdlToUg(f: PixelFormat): (c: Option<C.Codec>)
  {
    match f
    case UNKNOWN => None
    case IYUV => Some(C.I420)
    case UYVY => Some(C.UYVY)
    case YUY2 => Some(C.YUYV)
    case RGB24 => Some(C.RGB)
    case BGR24 => Some(C.BGR)
    case RGBA32 => Some(C.RGBA)
    case ARGB2101010 => Some(C.R10k)
  }

  /** The lookup is a bijection between the known codecs and the known
      formats: a format comes from a codec exactly when it displays that
      codec. */
  lemma FormatLookupInverse(c: C.Codec, f: PixelFormat)
    ensures (GetUgToSdlFormat(c) == f && f != UNKNOWN) <==> SdlToUg(f) == Some(c)
  {
  }

  /** Two different codecs never share an SDL format. */
  lemma FormatInjective(c1: C.Codec, c2: C.Codec)
    requires GetUgToSdlFormat(c1) != UNKNOWN
    requires GetUgToSdlFormat(c1) == GetUgToSdlFormat(c2)
    ensures c1 == c2
  {
    FormatLookupInverse(c1, GetUgToSdlFormat(c1));
    FormatLookupInverse(c2, GetUgToSdlFormat(c2));
  }

  /** `get_supported_pfs`: the table's codecs in order, then R10k when the
      `sdl2-r10k` parameter is given. */
  method GetSupportedPfs(r10kParam: bool) returns (codecs: seq<C.Codec>)
    ensures |codecs| == |PF_MAPPING| + (if r10kParam then 1 else 0)
    ensures forall i :: 0 <= i < |PF_MAPPING| ==> codecs[i] == PF_MAPPING[i].0
    ensures C.R10k in codecs <==> r10kParam
    ensures forall c :: c in codecs ==> GetUgToSdlFormat(c) != UNKNOWN
    ensures forall c: C.Codec :: GetUgToSdlFormat(c) != UNKNOWN ==> (c in codecs <==> c != C.R10k || r10kParam)
    ensures forall i, j :: 0 <= i < j < |codecs| ==> codecs[i] != codecs[j]
  {
    codecs := [];
    var i := 0;
    while i < |PF_MAPPING|
      invariant 0 <= i <= |PF_MAPPING|
      invariant |codecs| == i
      invariant forall k :: 0 <= k < i ==> codecs[k] == PF_MAPPING[k].0
    {
      codecs := codecs + [PF_MAPPING[i].0];
      i := i + 1;
    }
    if r10kParam {
      codecs := codecs + [C.R10k];
    }
  }
}
