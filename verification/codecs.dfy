/**
 The colour-space / compression identifiers (`codec_t`) the modelled files
 compare against. Only the identifiers those files name are distinguished;
 every other `codec_t` value is `OtherCodec`.
 */
module Codecs {

  datatype Codec =
    | I420 | UYVY | YUYV | RGB | BGR | RGBA | R10k
    | H264 | JPEG | MJPG
    | OtherCodec(id: nat)
}
