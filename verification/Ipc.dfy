/** The authenticated session between the daemons: framing, handshake, and one reply for each call.
    The two byte streams of a socket are sequences; the key exchange and the MAC are functions. */
module Ipc {
  import opened Wire
  import opened Wrappers

  const MSG_GET_PUBLIC_KEY: Byte := 0
  const MSG_PUBLIC_KEY: Byte := 1
  const MSG_REGISTER_CLIENT: Byte := 2
  const MSG_REGISTER_CLIENT_ACK: Byte := 3
  const MSG_APPLICATION: Byte := 4

  const MAC_LEN := 32
  const KEY_LEN := 32

  /** "paypunk-ipc-hmac" */
  const LABEL: Bytes := [112, 97, 121, 112, 117, 110, 107, 45, 105, 112, 99, 45, 104, 109, 97, 99]

  datatype Crypto = Crypto(publicKey: Bytes -> Bytes, shared: (Bytes, Bytes) -> Bytes, mac: (Bytes, Bytes) -> Bytes,
                           toUtf8: string -> Bytes, fromUtf8Lossy: Bytes -> string)

  /** The laws of the key exchange (section 6.1 of RFC 7748), and the sizes of keys and tags. */
  ghost predicate Lawful(c: Crypto) {
    && (forall s :: |c.publicKey(s)| == KEY_LEN)
    && (forall k, m :: |c.mac(k, m)| == MAC_LEN)
    && (forall a, b :: c.shared(a, c.publicKey(b)) == c.shared(b, c.publicKey(a)))
    && (forall s :: c.fromUtf8Lossy(c.toUtf8(s)) == s)
  }

  function SessionKey(c: Crypto, secret: Bytes, peer: Bytes): Bytes {
    c.mac(c.shared(secret, peer), LABEL)
  }

  // ----- Frames

  function WriteAll(frames: seq<Bytes>): Bytes {
    if frames == [] then [] else Field(frames[0]) + WriteAll(frames[1..])
  }

  /** The frames of a byte stream, as far as they are complete. */
  function ReadAll(stream: Bytes): seq<Bytes>
    decreases |stream|
  {
    match TakeField(stream)
    case None => []
    case Some((frame, rest)) => [frame] + ReadAll(rest)
  }

  predicate Sendable(frames: seq<Bytes>) {
    forall f <- frames :: |f| < 0x1_0000_0000
  }

  /** Frames written back to back are read as the same frames, exactly when their lengths fit. */
  lemma {:induction false} FramesReadBack(frames: seq<Bytes>)
    ensures ReadAll(WriteAll(frames)) == frames <==> Sendable(frames)
  {
    hide Field, TakeField;
    if Sendable(frames) {
      SendableReadBack(frames);
    } else {
      ReadAreSendable(WriteAll(frames));
    }
  }

  lemma {:induction false} SendableReadBack(frames: seq<Bytes>)
    requires Sendable(frames)
    ensures ReadAll(WriteAll(frames)) == frames
    decreases |frames|
  {
    hide Field, TakeField;
    if frames == [] {
      assert TakeField([]) == None by { NoField(); }
    } else {
      TakeFieldInverts(frames[0], WriteAll(frames[1..]));
      SendableReadBack(frames[1..]);
    }
  }

  lemma NoField()
    ensures TakeField([]) == None
  {}

  lemma {:induction false} ReadAreSendable(stream: Bytes)
    ensures Sendable(ReadAll(stream))
    decreases |stream|
  {
    hide Field;
    TakeFieldExact(stream);
    if TakeField(stream).Some? {
      ReadAreSendable(TakeField(stream).value.1);
    }
  }

  /** One end of a socket: what is yet to be read, and what has been written. */
  class Transport {
    var input: Bytes
    var output: Bytes
    var readBuf: Bytes

    constructor (input: Bytes)
      ensures this.input == input && output == []
    {
      this.input, output, readBuf := input, [], [];
    }

    /** The next n bytes of the stream, or none if it ends before that. */
    method ReadExact(n: nat) returns (bytes: Option<Bytes>)
      modifies this`input
      ensures if |old(input)| < n then bytes == None && input == []
              else bytes == Some(old(input)[..n]) && input == old(input)[n..]
    {
      if |input| < n {
        input := [];
        return None;
      }
      bytes := Some(input[..n]);
      input := input[n..];
    }

    method ReadFrame() returns (frame: Option<Bytes>)
      modifies this`input, this`readBuf
      ensures match TakeField(old(input))
              case None => frame == None && input == []
              case Some((f, rest)) => frame == Some(f) && input == rest
    {
      hide FromLe32;
      var lenBuf := ReadExact(4);
      if lenBuf.None? {
        return None;
      }
      var len := FromLe32(lenBuf.value);
      var data := ReadExact(len);
      if data.None? {
        return None;
      }
      readBuf := data.value;
      assert old(input)[4..][..len] == old(input)[4..4 + len];
      assert old(input)[4..][len..] == old(input)[4 + len..];
      return Some(readBuf);
    }

    method WriteFrame(data: Bytes)
      modifies this`output
      ensures output == old(output) + Field(data)
    {
      hide Le32;
      output := output + Le32(|data|);
      output := output + data;
    }
  }

  // ----- The server

  datatype Auth = Auth(macKey: Option<Bytes>, registered: bool, client: Option<Bytes>)

  /** What reaches the handler. */
  datatype Dispatch = Dispatch(payload: Bytes, sender: Option<Bytes>)

  /** The handler's answer to its n-th message. */
  type Handler = (nat, Dispatch) -> Result<Bytes, string>

  datatype Server = Server(auth: Auth, dispatched: seq<Dispatch>, open: bool)

  const FRESH := Server(Auth(None, false, None), [], true)

  function Response(c: Crypto, r: Result<Bytes, string>): Bytes {
    match r
    case Ok(bytes) => [0] + bytes
    case Err(e) => [1] + c.toUtf8(e)
  }

  /** What the server does with a frame, and the frame it answers with. */
  function OnFrame(c: Crypto, secret: Bytes, handler: Handler, s: Server, frame: Bytes): (Server, Option<Bytes>) {
    var closed := (s.(open := false), None);
    if frame == [] then closed
    else
      var payload := frame[1..];
      if frame[0] == MSG_GET_PUBLIC_KEY then (s, Some([MSG_PUBLIC_KEY] + c.publicKey(secret)))
      else if frame[0] == MSG_REGISTER_CLIENT then
        if |payload| != KEY_LEN then closed
        else (s.(auth := Auth(Some(SessionKey(c, secret, payload)), true, Some(payload))),
              Some([MSG_REGISTER_CLIENT_ACK]))
      else if frame[0] == MSG_APPLICATION then
        if !s.auth.registered || s.auth.macKey.None? || |payload| < MAC_LEN then closed
        else
          var n := |payload| - MAC_LEN;
          if payload[n..] != c.mac(s.auth.macKey.value, payload[..n]) then closed
          else
            var d := Dispatch(payload[..n], s.auth.client);
            (s.(dispatched := s.dispatched + [d]), Some(Response(c, handler(|s.dispatched|, d))))
      else closed
  }

  function Serve(c: Crypto, secret: Bytes, handler: Handler, s: Server, frames: seq<Bytes>): Server
    decreases |frames|
  {
    if frames == [] || !s.open then s
    else Serve(c, secret, handler, OnFrame(c, secret, handler, s, frames[0]).0, frames[1..])
  }

  function Replies(c: Crypto, secret: Bytes, handler: Handler, s: Server, frames: seq<Bytes>): seq<Bytes>
    decreases |frames|
  {
    if frames == [] || !s.open then []
    else
      var (s', reply) := OnFrame(c, secret, handler, s, frames[0]);
      AsList(reply) + Replies(c, secret, handler, s', frames[1..])
  }

  class Connection {
    const crypto: Crypto
    const secret: Bytes
    const handler: Handler
    const transport: Transport
    var auth: Auth
    var dispatched: seq<Dispatch>

    constructor (crypto: Crypto, secret: Bytes, handler: Handler, transport: Transport)
      ensures this.crypto == crypto && this.secret == secret && this.handler == handler && this.transport == transport
      ensures auth == FRESH.auth && dispatched == []
    {
      this.crypto, this.secret, this.handler, this.transport := crypto, secret, handler, transport;
      auth := Auth(None, false, None);
      dispatched := [];
    }

    ghost function State(open: bool): Server
      reads this
    {
      Server(auth, dispatched, open)
    }

    /** One turn of the loop: what is done with a frame that is not empty. */
    method HandleFrame(frame: Bytes) returns (open: bool)
      requires frame != [] && (auth.registered ==> auth.macKey.Some?)
      modifies this, transport`output
      ensures var (s, reply) := OnFrame(crypto, secret, handler, old(State(true)), frame);
              && State(open) == s
              && transport.output == old(transport.output) + (match reply case None => [] case Some(r) => Field(r))
      ensures auth.registered ==> auth.macKey.Some?
    {
      hide Field;
      var msgType, payload := frame[0], frame[1..];
      if msgType == MSG_GET_PUBLIC_KEY {
        var response := [MSG_PUBLIC_KEY];
        response := response + crypto.publicKey(secret);
        transport.WriteFrame(response);
      } else if msgType == MSG_REGISTER_CLIENT {
        if |payload| != KEY_LEN {
          return false;
        }
        var macKey := crypto.mac(crypto.shared(secret, payload), LABEL);
        auth := Auth(Some(macKey), true, Some(payload));
        transport.WriteFrame([MSG_REGISTER_CLIENT_ACK]);
      } else if msgType == MSG_APPLICATION {
        if !auth.registered {
          return false;
        }
        if |payload| < MAC_LEN {
          return false;
        }
        var n := |payload| - MAC_LEN;
        var message, tag := payload[..n], payload[n..];
        if tag != crypto.mac(auth.macKey.value, message) {
          return false;
        }
        var d := Dispatch(message, auth.client);
        var response := handler(|dispatched|, d);
        dispatched := dispatched + [d];
        match response {
          case Ok(bytes) =>
            transport.WriteFrame([0] + bytes);
          case Err(e) =>
            transport.WriteFrame([1] + crypto.toUtf8(e));
        }
      } else {
        return false;
      }
      return true;
    }

    /** The loop of a connection, over any bytes that arrive. */
    method HandleConnection() returns (ghost open: bool)
      requires State(true) == FRESH
      modifies this, transport
      ensures var frames := ReadAll(old(transport.input));
              && State(open) == Serve(crypto, secret, handler, FRESH, frames)
              && transport.output == old(transport.output) + WriteAll(Replies(crypto, secret, handler, FRESH, frames))
    {
      hide OnFrame, TakeField, Field, ReadAll, Serve, Replies, WriteAll;
      ghost var frames := ReadAll(transport.input);
      ghost var sent: seq<Bytes> := [];
      NothingSent(transport.output, Replies(crypto, secret, handler, FRESH, frames));
      while true
        invariant auth.registered ==> auth.macKey.Some?
        invariant Serve(crypto, secret, handler, State(true), ReadAll(transport.input)) ==
                  Serve(crypto, secret, handler, FRESH, frames)
        invariant sent + Replies(crypto, secret, handler, State(true), ReadAll(transport.input)) ==
                  Replies(crypto, secret, handler, FRESH, frames)
        invariant transport.output == old(transport.output) + WriteAll(sent)
        decreases |transport.input|
      {
        OneTurn(crypto, secret, handler, State(true), transport.input, sent);
        TakeFieldExact(transport.input);
        var frame := transport.ReadFrame();
        if frame.None? {
          return true;
        }
        if frame.value == [] {
          EmptyCloses(crypto, secret, handler, State(true), ReadAll(transport.input), sent);
          return false;
        }
        ghost var (next, reply) := OnFrame(crypto, secret, handler, State(true), frame.value);
        var more := HandleFrame(frame.value);
        WriteOne(sent, reply, old(transport.output));
        sent := sent + AsList(reply);
        if !more {
          Closed(crypto, secret, handler, next, ReadAll(transport.input), sent);
          return false;
        }
      }
    }
  }

  function AsList(reply: Option<Bytes>): seq<Bytes> {
    match reply
    case None => []
    case Some(r) => [r]
  }

  lemma NothingSent(b: Bytes, replies: seq<Bytes>)
    ensures b + WriteAll([]) == b
    ensures [] + replies == replies
  {}

  /** The next frame of a stream, if there is one, is the next frame served. */
  lemma OneTurn(c: Crypto, secret: Bytes, handler: Handler, s: Server, stream: Bytes, sent: seq<Bytes>)
    requires s.open
    ensures TakeField(stream) == None ==>
              Serve(c, secret, handler, s, ReadAll(stream)) == s &&
              sent + Replies(c, secret, handler, s, ReadAll(stream)) == sent
    ensures TakeField(stream).Some? ==>
              var frame, rest := TakeField(stream).value.0, TakeField(stream).value.1;
              var turn := OnFrame(c, secret, handler, s, frame);
              && Serve(c, secret, handler, s, ReadAll(stream)) == Serve(c, secret, handler, turn.0, ReadAll(rest))
              && sent + Replies(c, secret, handler, s, ReadAll(stream)) ==
                 sent + AsList(turn.1) + Replies(c, secret, handler, turn.0, ReadAll(rest))
  {
    hide OnFrame, TakeField;
    if TakeField(stream).Some? {
      var (frame, rest) := TakeField(stream).value;
      assert ReadAll(stream) == [frame] + ReadAll(rest);
      assert ReadAll(stream)[1..] == ReadAll(rest);
    }
  }

  lemma Closed(c: Crypto, secret: Bytes, handler: Handler, s: Server, frames: seq<Bytes>, sent: seq<Bytes>)
    requires !s.open
    ensures Serve(c, secret, handler, s, frames) == s && sent + Replies(c, secret, handler, s, frames) == sent
  {}

  lemma EmptyCloses(c: Crypto, secret: Bytes, handler: Handler, s: Server, frames: seq<Bytes>, sent: seq<Bytes>)
    ensures OnFrame(c, secret, handler, s, []) == (s.(open := false), None)
    ensures Serve(c, secret, handler, s.(open := false), frames) == s.(open := false)
    ensures sent + AsList(None) + Replies(c, secret, handler, s.(open := false), frames) == sent
  {}

  lemma {:induction false} WriteAllAppend(frames: seq<Bytes>, f: Bytes)
    ensures WriteAll(frames + [f]) == WriteAll(frames) + Field(f)
  {
    hide Field;
    if frames == [] {
      assert frames + [f] == [f];
      assert WriteAll([f]) == Field(f) + WriteAll([]);
    } else {
      assert (frames + [f])[1..] == frames[1..] + [f];
      WriteAllAppend(frames[1..], f);
    }
  }

  lemma WriteOne(sent: seq<Bytes>, reply: Option<Bytes>, before: Bytes)
    ensures before + WriteAll(sent + AsList(reply)) ==
            before + WriteAll(sent) + (match reply case None => [] case Some(r) => Field(r))
  {
    hide Field, WriteAll;
    match reply
    case None => assert sent + [] == sent;
    case Some(r) => WriteAllAppend(sent, r);
  }

  // ----- Nothing is dispatched without authentication

  function RegisteredBy(frame: Bytes): Option<Bytes> {
    if |frame| == 1 + KEY_LEN && frame[0] == MSG_REGISTER_CLIENT then Some(frame[1..]) else None
  }

  /** The key of the last client registered by these frames. */
  function LastRegistered(frames: seq<Bytes>): Option<Bytes> {
    if frames == [] then None
    else
      var n := |frames| - 1;
      if RegisteredBy(frames[n]).Some? then RegisteredBy(frames[n]) else LastRegistered(frames[..n])
  }

  function Sealed(key: Bytes, c: Crypto, payload: Bytes): Bytes {
    [MSG_APPLICATION] + payload + c.mac(key, payload)
  }

  /** The message in a frame that is authenticated under the key of a client, if it is. */
  function Authenticated(c: Crypto, secret: Bytes, client: Option<Bytes>, frame: Bytes): Option<Dispatch> {
    if client.None? || |frame| < 1 + MAC_LEN then None
    else
      var payload := frame[1..|frame| - MAC_LEN];
      var key := c.mac(c.shared(secret, client.value), LABEL);
      if frame == [MSG_APPLICATION] + payload + c.mac(key, payload) then Some(Dispatch(payload, client)) else None
  }

  /** The authenticated messages of a list of frames, each under the client registered last. */
  function AuthenticatedMessages(c: Crypto, secret: Bytes, frames: seq<Bytes>): seq<Dispatch> {
    if frames == [] then []
    else
      var n := |frames| - 1;
      AuthenticatedMessages(c, secret, frames[..n]) +
      match Authenticated(c, secret, LastRegistered(frames[..n]), frames[n])
      case None => []
      case Some(d) => [d]
  }

  /** What a server knows after it has taken these frames. */
  ghost predicate Knows(c: Crypto, secret: Bytes, past: seq<Bytes>, s: Server) {
    && s.auth.client == LastRegistered(past)
    && s.auth.registered == s.auth.client.Some?
    && s.auth.macKey == (match s.auth.client case None => None
                                             case Some(pk) => Some(c.mac(c.shared(secret, pk), LABEL)))
    && s.dispatched == AuthenticatedMessages(c, secret, past)
  }

  /** A frame of at least a tag's length, read as a message and its tag. */
  lemma MessageAndTag(c: Crypto, key: Bytes, frame: Bytes)
    requires Lawful(c) && |frame| >= 1 + MAC_LEN
    ensures
      var n, payload := |frame| - 1 - MAC_LEN, frame[1..|frame| - MAC_LEN];
      && frame[1..][..n] == payload
      && (frame == [frame[0]] + payload + c.mac(key, payload) <==> frame[1..][n..] == c.mac(key, payload))
  {
    var n, payload := |frame| - 1 - MAC_LEN, frame[1..|frame| - MAC_LEN];
    assert frame == [frame[0]] + payload + frame[1..][n..];
    var sealed := [frame[0]] + payload + c.mac(key, payload);
    assert sealed[1 + n..] == c.mac(key, payload);
  }

  lemma OnFrameKnows(c: Crypto, secret: Bytes, handler: Handler, past: seq<Bytes>, s: Server, frame: Bytes)
    requires Lawful(c) && Knows(c, secret, past, s)
    ensures Knows(c, secret, past + [frame], OnFrame(c, secret, handler, s, frame).0)
  {
    hide LastRegistered, AuthenticatedMessages, Response;
    PastUnfold(c, secret, past, frame);
    if |frame| >= 1 + MAC_LEN && s.auth.registered {
      MessageAndTag(c, s.auth.macKey.value, frame);
    }
  }

  lemma PastUnfold(c: Crypto, secret: Bytes, past: seq<Bytes>, frame: Bytes)
    ensures LastRegistered(past + [frame]) == if RegisteredBy(frame).Some? then RegisteredBy(frame)
                                              else LastRegistered(past)
    ensures AuthenticatedMessages(c, secret, past + [frame]) ==
            AuthenticatedMessages(c, secret, past) +
            match Authenticated(c, secret, LastRegistered(past), frame)
            case None => []
            case Some(d) => [d]
  {
    var all := past + [frame];
    assert all[..|all| - 1] == past && all[|all| - 1] == frame;
  }

  /** Whatever bytes a client sends, the handler sees exactly the authenticated messages among the
      frames taken, in their order: nothing before a registration, nothing with a wrong tag, and each
      under the key of the client registered last. Once closed the server takes no frame more. */
  lemma {:induction false} OnlyAuthenticatedDispatched(c: Crypto, secret: Bytes, handler: Handler, past: seq<Bytes>,
                                                       s: Server, frames: seq<Bytes>)
    requires Lawful(c) && Knows(c, secret, past, s)
    ensures
      var s' := Serve(c, secret, handler, s, frames);
      exists m :: 0 <= m <= |frames| && (s'.open ==> m == |frames|) &&
                  s'.dispatched == AuthenticatedMessages(c, secret, past + frames[..m])
    decreases |frames|
  {
    hide OnFrame, AuthenticatedMessages;
    if frames == [] || !s.open {
      assert past + frames[..0] == past;
      assert s.dispatched == AuthenticatedMessages(c, secret, past + frames[..0]);
    } else {
      var next := OnFrame(c, secret, handler, s, frames[0]).0;
      OnFrameKnows(c, secret, handler, past, s, frames[0]);
      OnlyAuthenticatedDispatched(c, secret, handler, past + [frames[0]], next, frames[1..]);
      var s' := Serve(c, secret, handler, s, frames);
      var m :| 0 <= m <= |frames| - 1 && (s'.open ==> m == |frames| - 1) &&
               s'.dispatched == AuthenticatedMessages(c, secret, past + [frames[0]] + frames[1..][..m]);
      TakenFrames(past, frames, m);
    }
  }

  lemma TakenFrames(past: seq<Bytes>, frames: seq<Bytes>, m: nat)
    requires m < |frames|
    ensures past + [frames[0]] + frames[1..][..m] == past + frames[..m + 1]
  {
    assert frames[..m + 1] == [frames[0]] + frames[1..][..m];
  }

  /** The same for a whole connection: any bytes at all, from the start. */
  lemma ConnectionDispatches(c: Crypto, secret: Bytes, handler: Handler, input: Bytes)
    requires Lawful(c)
    ensures
      var s := Serve(c, secret, handler, FRESH, ReadAll(input));
      exists m :: 0 <= m <= |ReadAll(input)| && (s.open ==> m == |ReadAll(input)|) &&
                  s.dispatched == AuthenticatedMessages(c, secret, ReadAll(input)[..m])
  {
    hide ReadAll, Serve;
    var frames := ReadAll(input);
    var s := Serve(c, secret, handler, FRESH, frames);
    OnlyAuthenticatedDispatched(c, secret, handler, [], FRESH, frames);
    var m :| 0 <= m <= |frames| && (s.open ==> m == |frames|) &&
             s.dispatched == AuthenticatedMessages(c, secret, [] + frames[..m]);
    assert [] + frames[..m] == frames[..m];
  }

  /** An application frame that is not authenticated closes the connection without an answer. */
  lemma UnauthenticatedCloses(c: Crypto, secret: Bytes, handler: Handler, past: seq<Bytes>, s: Server, frame: Bytes)
    requires Lawful(c) && Knows(c, secret, past, s)
    requires frame != [] && frame[0] == MSG_APPLICATION && Authenticated(c, secret, LastRegistered(past), frame) == None
    ensures OnFrame(c, secret, handler, s, frame) == (s.(open := false), None)
  {
    hide LastRegistered, AuthenticatedMessages, Response;
    if |frame| >= 1 + MAC_LEN && s.auth.registered {
      MessageAndTag(c, s.auth.macKey.value, frame);
    }
  }

  // ----- The client

  function ClientKey(c: Crypto, secret: Bytes, keyFrame: Bytes, ack: Bytes): Result<Bytes, string> {
    if |keyFrame| != 1 + KEY_LEN || keyFrame[0] != MSG_PUBLIC_KEY then Err("unexpected response to GetPublicKey")
    else if ack != [MSG_REGISTER_CLIENT_ACK] then Err("client registration rejected")
    else Ok(SessionKey(c, secret, keyFrame[1..]))
  }

  function ResultOf(c: Crypto, raw: Bytes): Result<Bytes, string> {
    if raw == [] then Err("empty response")
    else if raw[0] == 0 then Ok(raw[1..])
    else if raw[0] == 1 then Err(c.fromUtf8Lossy(raw[1..]))
    else Err("invalid response status")
  }

  const CLOSED := "Connection closed"

  class Client {
    const crypto: Crypto
    const transport: Transport
    var macKey: Bytes

    /** Connects a transport; Handshake must succeed before the first call. */
    constructor (crypto: Crypto, transport: Transport)
      ensures this.crypto == crypto && this.transport == transport
    {
      this.crypto, this.transport, macKey := crypto, transport, [];
    }

    /** The four steps of the handshake: two frames written, two read. */
    method Handshake(secret: Bytes) returns (r: Result<(), string>)
      modifies this, transport
      ensures
        var replies := ReadAll(old(transport.input));
        |replies| >= 2 ==>
          match ClientKey(crypto, secret, replies[0], replies[1])
          case Err(e) => r == Err(e)
          case Ok(key) =>
            && r == Ok(()) && macKey == key
            && ReadAll(transport.input) == replies[2..]
            && transport.output ==
               old(transport.output) +
               WriteAll([[MSG_GET_PUBLIC_KEY], [MSG_REGISTER_CLIENT] + crypto.publicKey(secret)])
      ensures |ReadAll(old(transport.input))| < 2 ==> r.Err?
    {
      hide TakeField, Field;
      transport.WriteFrame([MSG_GET_PUBLIC_KEY]);
      ghost var stream := transport.input;
      var frame := transport.ReadFrame();
      if frame.None? {
        return Err(CLOSED);
      }
      assert ReadAll(stream) == [frame.value] + ReadAll(transport.input);
      if |frame.value| != 1 + KEY_LEN || frame.value[0] != MSG_PUBLIC_KEY {
        return Err("unexpected response to GetPublicKey");
      }
      var serverPublic := frame.value[1..];
      var registration := [MSG_REGISTER_CLIENT];
      registration := registration + crypto.publicKey(secret);
      transport.WriteFrame(registration);
      stream := transport.input;
      var ack := transport.ReadFrame();
      if ack.None? {
        return Err(CLOSED);
      }
      assert ReadAll(stream) == [ack.value] + ReadAll(transport.input);
      if |ack.value| != 1 || ack.value[0] != MSG_REGISTER_CLIENT_ACK {
        return Err("client registration rejected");
      }
      assert ack.value == [MSG_REGISTER_CLIENT_ACK];
      macKey := SessionKey(crypto, secret, serverPublic);
      WriteTwo([MSG_GET_PUBLIC_KEY], registration);
      return Ok(());
    }

    /** One call: a frame written, a frame read. */
    method Call(payload: Bytes) returns (r: Result<Bytes, string>)
      modifies transport
      ensures transport.output == old(transport.output) + Field(Sealed(macKey, crypto, payload))
      ensures
        var replies := ReadAll(old(transport.input));
        if replies == [] then r == Err(CLOSED)
        else r == ResultOf(crypto, replies[0]) && ReadAll(transport.input) == replies[1..]
    {
      hide TakeField, Field;
      var tag := crypto.mac(macKey, payload);
      var frame: Bytes := [];
      frame := frame + [MSG_APPLICATION];
      frame := frame + payload;
      frame := frame + tag;
      assert frame == Sealed(macKey, crypto, payload);
      transport.WriteFrame(frame);
      ghost var stream := transport.input;
      var raw := transport.ReadFrame();
      if raw.None? {
        return Err(CLOSED);
      }
      assert ReadAll(stream) == [raw.value] + ReadAll(transport.input);
      if |raw.value| == 0 {
        return Err("empty response");
      }
      if raw.value[0] == 0 {
        return Ok(raw.value[1..]);
      } else if raw.value[0] == 1 {
        return Err(crypto.fromUtf8Lossy(raw.value[1..]));
      }
      return Err("invalid response status");
    }
  }

  lemma WriteTwo(a: Bytes, b: Bytes)
    ensures WriteAll([a, b]) == Field(a) + Field(b)
  {
    hide Field;
    assert [a, b][1..] == [b];
    assert WriteAll([b]) == Field(b) + WriteAll([]);
  }

  // ----- A whole session

  function Calls(key: Bytes, c: Crypto, payloads: seq<Bytes>): seq<Bytes> {
    seq(|payloads|, k requires 0 <= k < |payloads| => Sealed(key, c, payloads[k]))
  }

  /** The frames of a client that registers and then makes these calls. */
  function ClientFrames(c: Crypto, clientSecret: Bytes, key: Bytes, payloads: seq<Bytes>): seq<Bytes> {
    [[MSG_GET_PUBLIC_KEY], [MSG_REGISTER_CLIENT] + c.publicKey(clientSecret)] + Calls(key, c, payloads)
  }

  lemma CallAnswered(c: Crypto, secret: Bytes, handler: Handler, s: Server, key: Bytes, pk: Bytes, payload: Bytes)
    requires Lawful(c) && s.open && s.auth == Auth(Some(key), true, Some(pk))
    ensures
      var d := Dispatch(payload, Some(pk));
      OnFrame(c, secret, handler, s, Sealed(key, c, payload)) ==
      (s.(dispatched := s.dispatched + [d]), Some(Response(c, handler(|s.dispatched|, d))))
  {
    hide Response;
    var tail := Sealed(key, c, payload)[1..];
    assert tail[..|tail| - MAC_LEN] == payload && tail[|tail| - MAC_LEN..] == c.mac(key, payload);
  }

  /** A registered server answers each authenticated call with the handler's result for it. */
  lemma {:induction false} CallsAnswered(c: Crypto, secret: Bytes, handler: Handler, s: Server, key: Bytes,
                                         pk: Bytes, payloads: seq<Bytes>)
    requires Lawful(c) && s.open && s.auth == Auth(Some(key), true, Some(pk))
    ensures
      var frames := Calls(key, c, payloads);
      var replies := Replies(c, secret, handler, s, frames);
      && Serve(c, secret, handler, s, frames).open && Serve(c, secret, handler, s, frames).auth == s.auth
      && |replies| == |payloads|
      && forall k :: 0 <= k < |payloads| ==>
                       replies[k] == Response(c, handler(|s.dispatched| + k, Dispatch(payloads[k], Some(pk))))
    decreases |payloads|
  {
    hide Response, OnFrame, Sealed;
    if payloads != [] {
      var frames := Calls(key, c, payloads);
      assert frames[1..] == Calls(key, c, payloads[1..]);
      CallAnswered(c, secret, handler, s, key, pk, payloads[0]);
      CallsAnswered(c, secret, handler, OnFrame(c, secret, handler, s, frames[0]).0, key, pk, payloads[1..]);
    }
  }

  /** After the handshake both ends hold the same key, and the k-th call gets the k-th result of the
      handler, success or error intact. */
  lemma SessionDelivers(c: Crypto, clientSecret: Bytes, serverSecret: Bytes, handler: Handler, payloads: seq<Bytes>)
    requires Lawful(c)
    ensures
      var pk := c.publicKey(clientSecret);
      var key := c.mac(c.shared(clientSecret, c.publicKey(serverSecret)), LABEL);
      var frames := ClientFrames(c, clientSecret, key, payloads);
      var replies := Replies(c, serverSecret, handler, FRESH, frames);
      var s := Serve(c, serverSecret, handler, FRESH, frames);
      && s.open && s.auth.macKey == Some(key)
      && |replies| == 2 + |payloads|
      && ClientKey(c, clientSecret, replies[0], replies[1]) == Ok(key)
      && forall k :: 0 <= k < |payloads| ==>
                       ResultOf(c, replies[2 + k]) == handler(k, Dispatch(payloads[k], Some(pk)))
  {
    hide Calls, Response, OnFrame, Replies, Serve, ResultOf;
    var pk, spk := c.publicKey(clientSecret), c.publicKey(serverSecret);
    var key := SessionKey(c, clientSecret, spk);
    SameKey(c, clientSecret, serverSecret);
    var calls := Calls(key, c, payloads);
    var registered := Server(Auth(Some(key), true, Some(pk)), [], true);
    HandshakeAnswered(c, serverSecret, handler, pk, calls);
    CallsAnswered(c, serverSecret, handler, registered, key, pk, payloads);
    var replies := Replies(c, serverSecret, handler, FRESH, ClientFrames(c, clientSecret, key, payloads));
    var answers := Replies(c, serverSecret, handler, registered, calls);
    assert replies[0][1..] == spk;
    forall k | 0 <= k < |payloads|
      ensures ResultOf(c, replies[2 + k]) == handler(k, Dispatch(payloads[k], Some(pk)))
    {
      assert replies[2 + k] == answers[k];
      ResponseRead(c, handler(k, Dispatch(payloads[k], Some(pk))));
    }
  }

  /** The two frames of the handshake, and what follows them. */
  lemma HandshakeAnswered(c: Crypto, secret: Bytes, handler: Handler, pk: Bytes, calls: seq<Bytes>)
    requires |pk| == KEY_LEN
    ensures
      var frames := [[MSG_GET_PUBLIC_KEY], [MSG_REGISTER_CLIENT] + pk] + calls;
      var registered := Server(Auth(Some(SessionKey(c, secret, pk)), true, Some(pk)), [], true);
      && Serve(c, secret, handler, FRESH, frames) == Serve(c, secret, handler, registered, calls)
      && Replies(c, secret, handler, FRESH, frames) ==
         [[MSG_PUBLIC_KEY] + c.publicKey(secret), [MSG_REGISTER_CLIENT_ACK]] +
         Replies(c, secret, handler, registered, calls)
  {
    hide SessionKey, OnFrame;
    var registration := [MSG_REGISTER_CLIENT] + pk;
    var frames := [[MSG_GET_PUBLIC_KEY], registration] + calls;
    var registered := Server(Auth(Some(SessionKey(c, secret, pk)), true, Some(pk)), [], true);
    var tail := [registration] + calls;
    assert frames[1..] == tail && tail[1..] == calls;
    HandshakeFrames(c, secret, handler, pk);
    assert Replies(c, secret, handler, FRESH, frames) ==
           [[MSG_PUBLIC_KEY] + c.publicKey(secret)] + Replies(c, secret, handler, FRESH, tail);
    assert Replies(c, secret, handler, FRESH, tail) ==
           [[MSG_REGISTER_CLIENT_ACK]] + Replies(c, secret, handler, registered, calls);
  }

  lemma HandshakeFrames(c: Crypto, secret: Bytes, handler: Handler, pk: Bytes)
    requires |pk| == KEY_LEN
    ensures OnFrame(c, secret, handler, FRESH, [MSG_GET_PUBLIC_KEY]) ==
            (FRESH, Some([MSG_PUBLIC_KEY] + c.publicKey(secret)))
    ensures OnFrame(c, secret, handler, FRESH, [MSG_REGISTER_CLIENT] + pk) ==
            (Server(Auth(Some(SessionKey(c, secret, pk)), true, Some(pk)), [], true), Some([MSG_REGISTER_CLIENT_ACK]))
  {
    hide SessionKey;
    assert ([MSG_REGISTER_CLIENT] + pk)[1..] == pk;
  }

  /** The same over the two byte streams, for messages whose frames have lengths that fit. */
  lemma SessionOverSockets(c: Crypto, clientSecret: Bytes, serverSecret: Bytes, handler: Handler, payloads: seq<Bytes>)
    requires Lawful(c)
    requires forall k :: 0 <= k < |payloads| ==>
                           && |payloads[k]| + 1 + MAC_LEN < 0x1_0000_0000
                           && |Response(c, handler(k, Dispatch(payloads[k], Some(c.publicKey(clientSecret)))))| <
                              0x1_0000_0000
    ensures
      var pk := c.publicKey(clientSecret);
      var key := c.mac(c.shared(clientSecret, c.publicKey(serverSecret)), LABEL);
      var toServer := WriteAll(ClientFrames(c, clientSecret, key, payloads));
      var toClient := WriteAll(Replies(c, serverSecret, handler, FRESH, ReadAll(toServer)));
      && |ReadAll(toClient)| == 2 + |payloads|
      && forall k :: 0 <= k < |payloads| ==>
                       ResultOf(c, ReadAll(toClient)[2 + k]) == handler(k, Dispatch(payloads[k], Some(pk)))
  {
    hide Response, OnFrame, Replies, Serve, ResultOf, WriteAll, ReadAll;
    var pk, spk := c.publicKey(clientSecret), c.publicKey(serverSecret);
    var key := SessionKey(c, clientSecret, spk);
    var calls := Calls(key, c, payloads);
    var frames := ClientFrames(c, clientSecret, key, payloads);
    forall i | 0 <= i < |frames| ensures |frames[i]| < 0x1_0000_0000 {
      if i >= 2 {
        assert frames[i] == Sealed(key, c, payloads[i - 2]);
      }
    }
    FramesReadBack(frames);
    SessionDelivers(c, clientSecret, serverSecret, handler, payloads);
    SameKey(c, clientSecret, serverSecret);
    HandshakeAnswered(c, serverSecret, handler, pk, calls);
    CallsAnswered(c, serverSecret, handler, Server(Auth(Some(key), true, Some(pk)), [], true), key, pk, payloads);
    FramesReadBack(Replies(c, serverSecret, handler, FRESH, frames));
  }

  lemma SameKey(c: Crypto, a: Bytes, b: Bytes)
    requires Lawful(c)
    ensures SessionKey(c, a, c.publicKey(b)) == SessionKey(c, b, c.publicKey(a))
  {}

  lemma ResponseRead(c: Crypto, r: Result<Bytes, string>)
    requires Lawful(c)
    ensures ResultOf(c, Response(c, r)) == r
  {
    match r
    case Ok(bytes) => assert ([0] + bytes)[1..] == bytes;
    case Err(e) => assert ([1] + c.toUtf8(e))[1..] == c.toUtf8(e);
  }

  /** The server answers a frame from the frames up to it alone, so a client that waits for each answer
      before it sends the next frame gets the same answers. */
  lemma {:induction false} AnswersAreCausal(c: Crypto, secret: Bytes, handler: Handler, s: Server,
                                            frames: seq<Bytes>, later: seq<Bytes>)
    ensures Replies(c, secret, handler, s, frames) <= Replies(c, secret, handler, s, frames + later)
    decreases |frames|
  {
    hide OnFrame;
    if frames != [] && s.open {
      assert (frames + later)[1..] == frames[1..] + later;
      AnswersAreCausal(c, secret, handler, OnFrame(c, secret, handler, s, frames[0]).0, frames[1..], later);
    }
  }
}
