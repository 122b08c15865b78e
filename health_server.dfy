/**
 * `HealthServer`: the liveness and readiness routes and the start/stop of
 * the listener that serves them.
 */
module HealthServer {
  import opened Wrappers
  import opened JavaLang
  import opened Http

  /** The statement timeout, in seconds, of the readiness ping. */
  const ReadyTimeoutSeconds: int := 3

  const HealthContexts: seq<string> := ["/health", "/ready"]

  /**
   * A handler's reply with a text body and no `Content-Type`: the declared
   * length is `response.length()`, and `response.getBytes()` is written.
   */
  function TextResponse(status: int, response: string): (r: Response)
    requires IsAscii(response)
    ensures r.status == status && r.contentType == None
    ensures r.body == AsciiBytes(response) && r.contentLength == |r.body|
  {
    AsciiLengthIsByteLength(response);
    Response(status, None, Utf16Length(response), AsciiBytes(response))
  }

  /** `HealthHandler`: always 200 `OK`, whatever the state of the database. */
  function HealthResponse(): (r: Response)
    ensures r.status == 200 && r.body == AsciiBytes("OK") && r.contentType == None
    ensures r.contentLength == |r.body|
  {
    TextResponse(200, "OK")
  }

  /**
   * `ReadyHandler`: one fresh `ping(3)` decides the answer, 200 `READY` or
   * 503 `NOT READY`; no stored probe result is read. `ping` stands for
   * `DatabaseClient.ping`, whose argument is the statement timeout.
   */
  function ReadyResponse(ping: int -> bool): (r: Response)
    ensures ping(ReadyTimeoutSeconds) ==> r.status == 200 && r.body == AsciiBytes("READY")
    ensures !ping(ReadyTimeoutSeconds) ==> r.status == 503 && r.body == AsciiBytes("NOT READY")
    ensures r.contentLength == |r.body| && r.contentType == None
  {
    if ping(ReadyTimeoutSeconds) then TextResponse(200, "READY") else TextResponse(503, "NOT READY")
  }

  /** Two database clients that answer `ping(3)` alike get the same readiness response. */
  lemma ReadyResponseOnlyAsksPingThree(ping1: int -> bool, ping2: int -> bool)
    requires ping1(ReadyTimeoutSeconds) == ping2(ReadyTimeoutSeconds)
    ensures ReadyResponse(ping1) == ReadyResponse(ping2)
  {
  }

  /** The server object; `server` is Java's nullable `HttpServer` field. */
  class HealthServer {
    const port: int
    var server: Option<Listener>

    constructor (port: int)
      ensures this.port == port && server == None
    {
      this.port := port;
      server := None;
    }

    /**
     * `start`: `bindOk` is whether `HttpServer.create` can bind the port.
     * When it cannot, the `IOException` is only logged and `server` keeps its value.
     */
    method Start(bindOk: bool)
      modifies this
      ensures bindOk ==> server == Some(Listener(port, HealthContexts, true))
      ensures !bindOk ==> server == old(server)
    {
      if bindOk {
        var created := Listener(port, [], false);
        created := created.(contexts := created.contexts + ["/health"]);
        created := created.(contexts := created.contexts + ["/ready"]);
        assert created.contexts == HealthContexts;
        server := Some(created.(running := true));
      }
    }

    /** `stop`: stops the listener if there is one, and does nothing otherwise. */
    method Stop()
      modifies this
      ensures old(server).None? ==> server == None
      ensures old(server).Some? ==> server == Some(old(server).value.(running := false))
    {
      if server.Some? {
        server := Some(server.value.(running := false));
      }
    }
  }

  /** A fresh server started then stopped: a failed start leaves nothing for `stop` to do. */
  method StartThenStop(port: int, bindOk: bool) returns (final: Option<Listener>)
    ensures bindOk ==> final == Some(Listener(port, HealthContexts, false))
    ensures !bindOk ==> final == None
  {
    var h := new HealthServer(port);
    h.Start(bindOk);
    h.Stop();
    final := h.server;
  }
}
