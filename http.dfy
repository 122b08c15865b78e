/**
 * The parts of `com.sun.net.httpserver` the handlers and servers touch:
 * the response a handler sends, and the listener a server holds.
 */
module Http {
  import opened Wrappers
  import opened JavaLang

  type byte = b: int | 0 <= b < 256

  /**
   * What a handler sends: the status and declared length given to
   * `sendResponseHeaders`, the `Content-Type` header if it adds one, and the
   * bytes written to the response body. `contentLength` is the argument as
   * passed: `sendResponseHeaders` reads 0 as chunked encoding with no
   * `Content-Length` header, and a positive value as that header.
   */
  datatype Response = Response(status: int, contentType: Option<string>, contentLength: int, body: seq<byte>)

  /** An `HttpServer` bound to `port`, with the contexts it serves, running until `stop` is called. */
  datatype Listener = Listener(port: int, contexts: seq<string>, running: bool)

  predicate IsAscii(s: string) {
    forall i :: 0 <= i < |s| ==> s[i] as int < 128
  }

  /**
   * `String.getBytes()` of an ASCII string under an ASCII-compatible default
   * charset (UTF-8, the default from JDK 18 on, is one): one byte per
   * character, with the character's code.
   */
  function AsciiBytes(s: string): (b: seq<byte>)
    requires IsAscii(s)
    ensures |b| == |s|
    ensures forall i :: 0 <= i < |s| ==> b[i] == s[i] as int
  {
    seq(|s|, i requires 0 <= i < |s| => s[i] as int)
  }

  /** For an ASCII body, the length `String.length` reports is the number of bytes sent. */
  lemma AsciiLengthIsByteLength(s: string)
    requires IsAscii(s)
    ensures Utf16Length(s) == |AsciiBytes(s)|
  {
  }
}
