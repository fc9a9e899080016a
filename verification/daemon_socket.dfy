/**
 * The request handling of `sw_daemon/ipc/socket.py` as a function from
 * what one connection delivered to the reply it gets.  `received` is the
 * decoded text of the single `recv` the server makes (`None` when reading
 * raised), and `setter` is `set_image`: `None` when it returns, the
 * exception's message when it raises.  The server answers one request
 * per connection, one connection at a time.
 */
module DaemonSocket {
  import opened Base
  import opened PyStr

  /** What a request asks for. */
  datatype Request = SetImage(path: string) | Unknown

  /** `receive_data`: the received text, stripped; a failed read gives nothing. */
  function Receive(received: Option<string>): (r: Option<string>)
    ensures received.None? <==> r.None?
    ensures r.Some? ==> r.value == Strip(received.value) && Stripped(r.value)
  {
    match received
    case None => None
    case Some(t) => Some(Strip(t))
  }

  /** The command in stripped data: `set ` in any case, then the path, stripped again. */
  function Parse(data: string): (r: Request)
    ensures r.SetImage? <==> |data| >= 4 && Lower(data[..4]) == "set "
    ensures r.SetImage? ==> r.path == Strip(data[4..]) && Stripped(r.path)
  {
    if StartsWith(Lower(data), "set ") then
      assert Lower(data)[..4] == Lower(data[..4]);
      SetImage(Strip(data[4..]))
    else
      assert |data| >= 4 ==> Lower(data)[..4] == Lower(data[..4]);
      Unknown
  }

  /** `send_error`. */
  function ErrorReply(message: string): (r: string)
    ensures |r| == |message| + 8
    ensures r[..7] == "ERROR: " && r[|r| - 1] == '\n' && r[7..|r| - 1] == message
  {
    "ERROR: " + message + "\n"
  }

  const OkReply := "OK\n"

  /** `handle_set_command`. */
  function SetReply(path: string, setter: string -> Option<string>): (r: string)
    ensures setter(path).None? <==> r == OkReply
    ensures setter(path).Some? ==> r == ErrorReply(setter(path).value)
  {
    match setter(path)
    case None => OkReply
    case Some(message) => ErrorReply(message)
  }

  /** `handle_client`: the reply sent, if any. */
  function HandleClient(received: Option<string>, setter: string -> Option<string>): (r: Option<string>)
    ensures r.None? <==> Receive(received).None? || Receive(received).value == []
    ensures r.Some? ==> match Parse(Receive(received).value)
                        case SetImage(p) => r.value == SetReply(p, setter)
                        case Unknown => r.value == ErrorReply("Unknown command")
  {
    match Receive(received)
    case None => None
    case Some(data) =>
      if data == [] then None
      else
        match Parse(data)
        case SetImage(p) => Some(SetReply(p, setter))
        case Unknown => Some(ErrorReply("Unknown command"))
  }

  /** An empty or blank request gets no reply at all. */
  lemma BlankGetsNoReply(text: string, setter: string -> Option<string>)
    requires AllSpace(text)
    ensures HandleClient(Some(text), setter).None?
  {
    StripAllSpace(text);
  }

  /** A word that starts with a non-space keeps its place under `strip`; only the tail loses its right end. */
  lemma StripAfterWord(w: string, rest: string)
    requires w != [] && !IsSpace(w[0]) && !AllSpace(rest)
    ensures Strip(w + rest) == w + RStrip(rest)
  {
    LStripPrefixed(w, rest);
    RStripPrefix(w, rest);
  }

  /** A request that starts with some casing of `set ` and has a non-blank tail asks to set the stripped tail. */
  lemma ParseSetRequest(w: string, rest: string)
    requires |w| == 4 && Lower(w) == "set " && !IsSpace(w[0]) && !AllSpace(rest)
    ensures Receive(Some(w + rest)) == Some(w + RStrip(rest))
    ensures Parse(w + RStrip(rest)) == SetImage(Strip(rest))
  {
    StripAfterWord(w, rest);
    var data := w + RStrip(rest);
    assert data[..4] == w;
    assert data[4..] == RStrip(rest);
    StripRStrip(rest);
  }

  /** Such a request gets the reply of `handle_set_command` for the stripped tail. */
  lemma HandleSetRequest(w: string, rest: string, setter: string -> Option<string>)
    requires |w| == 4 && Lower(w) == "set " && !IsSpace(w[0]) && !AllSpace(rest)
    ensures HandleClient(Some(w + rest), setter) == Some(SetReply(Strip(rest), setter))
  {
    ParseSetRequest(w, rest);
  }

  lemma SetWord(verb: string)
    requires |verb| == 3 && Lower(verb) == "set"
    ensures var w := verb + " "; |w| == 4 && Lower(w) == "set " && !IsSpace(w[0])
  {
    LowerConcat(verb, " ");
    assert Lower(verb)[0] == LowerChar(verb[0]);
  }

  /** The verb is matched without regard to case: `SET`, `set` and `SeT` all set the stripped tail. */
  lemma VerbAnyCase(verb: string, rest: string, setter: string -> Option<string>)
    requires |verb| == 3 && Lower(verb) == "set"
    requires !AllSpace(rest)
    ensures HandleClient(Some(verb + " " + rest), setter) == Some(SetReply(Strip(rest), setter))
  {
    SetWord(verb);
    HandleSetRequest(verb + " ", rest, setter);
  }

  /** `SET` with nothing after it but spaces is not a set command: stripping eats the separator. */
  lemma BareSetUnknown(spaces: string, setter: string -> Option<string>)
    requires AllSpace(spaces)
    ensures HandleClient(Some("SET" + spaces), setter) == Some(ErrorReply("Unknown command"))
  {
    var t := "SET" + spaces;
    LStripPrefixed("SET", spaces);
    RStripAppendSpace("SET", spaces);
    assert RStrip("SET") == "SET";
    assert Strip(t) == "SET";
  }

  /** Every reply is `OK\n` or starts with `ERROR: `, and ends with a newline. */
  lemma ReplyShape(received: Option<string>, setter: string -> Option<string>)
    requires HandleClient(received, setter).Some?
    ensures var r := HandleClient(received, setter).value;
            (r == OkReply || (|r| >= 8 && r[..7] == "ERROR: ")) && r[|r| - 1] == '\n'
  {
  }
}
