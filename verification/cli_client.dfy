/**
 * `SWDaemonClient` of `sw_cli/ipc/client.py`: the text `set_wallpaper`
 * sends and how it classifies what comes back.  The connection is a
 * `Transport`: how it ended, and the decoded reply when it was read to the
 * end.  Connecting, timeouts and reading in chunks are the transport's
 * business and enter only through it.
 */
module CliClient {
  import opened Base
  import opened PyStr
  import DaemonSocket

  /** How the exchange with the daemon ended. */
  datatype Transport =
    | TimedOut            // `socket.timeout`
    | Refused             // `ConnectionRefusedError` or `FileNotFoundError`
    | SocketFailed        // any other `socket.error`
    | Replied(data: string) // everything received until the daemon closed

  datatype ClientError =
    | Timeout            // `SWDaemonTimeoutError`
    | ConnectionFailed   // `SWDaemonConnectionError`
    | DaemonError        // the base `SWDaemonError`
    | ProtocolError(response: string) // `SWDaemonProtocolError`

  /** What `_send_command` writes to the socket. */
  function Message(command: string): (r: string)
    ensures |r| == |command| + 1 && r[..|command|] == command && r[|command|] == '\n'
  {
    command + "\n"
  }

  /** The request `set_wallpaper(p)` sends. */
  function SetRequest(p: string): (r: string)
    ensures r == "SET " + p + "\n"
  {
    Message("SET " + p)
  }

  /**
   * `_send_command`'s result: the stripped reply.  An empty one raises
   * `SWDaemonProtocolError` inside the `try`, where the catch-all handler
   * turns it into the base `SWDaemonError`.
   */
  function Response(t: Transport): (r: Result<string, ClientError>)
    ensures t.TimedOut? ==> r == Err(Timeout)
    ensures t.Refused? ==> r == Err(ConnectionFailed)
    ensures t.SocketFailed? ==> r == Err(DaemonError)
    ensures t.Replied? ==> (r.Ok? <==> !AllSpace(t.data))
    ensures t.Replied? && AllSpace(t.data) ==> r == Err(DaemonError)
    ensures r.Ok? ==> r.value == Strip(t.data) && r.value != []
  {
    match t
    case TimedOut => Err(Timeout)
    case Refused => Err(ConnectionFailed)
    case SocketFailed => Err(DaemonError)
    case Replied(data) =>
      StripAllSpace(data);
      var response := Strip(data);
      if response == [] then Err(DaemonError) else Ok(response)
  }

  /** `set_wallpaper`: a reply is accepted iff, stripped, it starts with `OK`. */
  function SetWallpaper(t: Transport): (r: Result<string, ClientError>)
    ensures Response(t).Err? ==> r == Response(t)
    ensures Response(t).Ok? ==> (r.Ok? <==> StartsWith(Response(t).value, "OK"))
    ensures Response(t).Ok? && r.Err? ==> r == Err(ProtocolError(Response(t).value))
    ensures r.Ok? ==> r == Response(t)
  {
    match Response(t)
    case Err(e) => Err(e)
    case Ok(response) =>
      if !StartsWith(response, "OK") then Err(ProtocolError(response)) else Ok(response)
  }

  /** The daemon reads the request for `p`, delivered in one piece, as a request to set `p.strip()`. */
  lemma ServerDecodesRequest(p: string)
    requires !AllSpace(p)
    ensures DaemonSocket.Parse(DaemonSocket.Receive(Some(SetRequest(p))).value) == DaemonSocket.SetImage(Strip(p))
  {
    var w := "SET ";
    assert SetRequest(p) == w + p + "\n";
    assert |w| == 4 && Lower(w) == "set " && !IsSpace(w[0]);
    DecodesAfterWord(w, p);
  }

  /** Any casing of `set ` followed by a line whose text is not blank asks to set the stripped text. */
  lemma DecodesAfterWord(w: string, p: string)
    requires |w| == 4 && Lower(w) == "set " && !IsSpace(w[0]) && !AllSpace(p)
    ensures DaemonSocket.Parse(DaemonSocket.Receive(Some(w + p + "\n")).value) == DaemonSocket.SetImage(Strip(p))
  {
    var rest := p + "\n";
    assert w + p + "\n" == w + rest;
    NotBlankExtended(p, "\n");
    DaemonSocket.ParseSetRequest(w, rest);
    assert DaemonSocket.Receive(Some(w + p + "\n")).value == w + RStrip(rest);
    StripAppendNewline(p);
  }

  lemma NotBlankExtended(p: string, q: string)
    requires !AllSpace(p)
    ensures !AllSpace(p + q)
  {
    var i :| 0 <= i < |p| && !IsSpace(p[i]);
    assert (p + q)[i] == p[i];
  }

  /** The line end the request carries disappears under `strip`. */
  lemma StripAppendNewline(p: string)
    ensures Strip(p + "\n") == Strip(p)
  {
    var nl := "\n";
    assert AllSpace(nl) by { assert IsSpace(nl[0]); }
    StripAppendSpace(p, nl);
  }

  /** A blank path makes a request the daemon does not know. */
  lemma BlankPathUnknown(p: string, setter: string -> Option<string>)
    requires AllSpace(p)
    ensures DaemonSocket.HandleClient(Some(SetRequest(p)), setter) == Some(DaemonSocket.ErrorReply("Unknown command"))
  {
    assert AllSpace(" " + p + "\n");
    assert SetRequest(p) == "SET" + (" " + p + "\n");
    DaemonSocket.BareSetUnknown(" " + p + "\n", setter);
  }

  /** The client accepts the daemon's `OK` reply. */
  lemma OkAccepted()
    ensures SetWallpaper(Replied(DaemonSocket.OkReply)) == Ok("OK")
  {
    var ok := "OK";
    assert DaemonSocket.OkReply == ok + "\n";
    StripAppendNewline(ok);
    assert Stripped(ok);
    StripOfStripped(ok);
    Accepted(DaemonSocket.OkReply, ok);
  }

  /** A reply that strips to text starting with `OK` is accepted as that text. */
  lemma Accepted(t: string, s: string)
    requires Strip(t) == s && StartsWith(s, "OK")
    ensures SetWallpaper(Replied(t)) == Ok(s)
  {
    StripAllSpace(t);
  }

  /** The client refuses every `ERROR:` reply, carrying the stripped reply. */
  lemma ErrorRefused(message: string)
    ensures SetWallpaper(Replied(DaemonSocket.ErrorReply(message))) ==
              Err(ProtocolError(Strip(DaemonSocket.ErrorReply(message))))
  {
    var e := DaemonSocket.ErrorReply(message);
    assert e[0] == e[..7][0] == 'E';
    OtherRefused(e);
  }

  /** A reply whose first character is neither blank nor `O` is refused, carrying the stripped reply. */
  lemma OtherRefused(e: string)
    requires e != [] && !IsSpace(e[0]) && e[0] != 'O'
    ensures SetWallpaper(Replied(e)) == Err(ProtocolError(Strip(e)))
  {
    assert e == [e[0]] + e[1..];
    LStripPrefixed([e[0]], e[1..]);
    assert !AllSpace(e) by { assert !IsSpace(e[0]); }
    var r := RStrip(e);
    assert Strip(e) == r;
    assert r != [] && r[0] == e[0];
    assert !StartsWith(r, "OK");
  }

  /** When `set_image` succeeds the client sees `OK`; when it raises, a protocol error carrying the reply. */
  lemma RoundTrip(p: string, setter: string -> Option<string>)
    requires !AllSpace(p)
    ensures var reply := DaemonSocket.HandleClient(Some(SetRequest(p)), setter);
            reply.Some? &&
            (setter(Strip(p)).None? ==> SetWallpaper(Replied(reply.value)) == Ok("OK")) &&
            (setter(Strip(p)).Some? ==>
               SetWallpaper(Replied(reply.value)) == Err(ProtocolError(Strip(DaemonSocket.ErrorReply(setter(Strip(p)).value)))))
  {
    ServerDecodesRequest(p);
    assert DaemonSocket.Receive(Some(SetRequest(p))).value != [];
    var reply := DaemonSocket.HandleClient(Some(SetRequest(p)), setter);
    assert reply == Some(DaemonSocket.SetReply(Strip(p), setter));
    if setter(Strip(p)).Some? {
      ErrorRefused(setter(Strip(p)).value);
    } else {
      OkAccepted();
    }
  }
}
