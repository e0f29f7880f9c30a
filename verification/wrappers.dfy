/** Small shared value types: an optional value and the HTTP response record
    that both route handlers return. */
module Wrappers {

  datatype Option<+T> = None | Some(value: T)

  /** An octet, as the QR raster encoder returns them. */
  newtype byte = x: int | 0 <= x < 256

  /** A response body: text (the vCard, the SVG image) or raw octets (the PNG
      image). */
  datatype Body = Text(text: string) | Bytes(octets: seq<byte>)

  /** What a handler hands to the web server: status, body and headers. */
  datatype Response = Response(status: int, body: Body, headers: map<string, string>)
}
