/** The protocol of the sessions byte by byte, and who can make a frame that is dispatched: only a holder
    of the secret that client and server share. */
module IpcLaws {
  import opened Ipc
  import opened Wire
  import opened Wrappers

  /** The label is the text of the key derivation. */
  lemma LabelText()
    ensures LABEL == seq(16, i requires 0 <= i < 16 => "paypunk-ipc-hmac"[i] as int)
  {}

  /** A frame on the wire is its length, least significant byte first, and then its bytes. */
  lemma WireFormat(a: Byte, b: Byte, rest: seq<Bytes>)
    ensures WriteAll([[a, b]] + rest) == [2, 0, 0, 0, a, b] + WriteAll(rest)
  {
    assert ([[a, b]] + rest)[1..] == rest;
  }

  /** What each kind of frame is answered with. A registration replaces the one before it. */
  lemma Answers(c: Crypto, secret: Bytes, handler: Handler, s: Server, payload: Bytes)
    ensures OnFrame(c, secret, handler, s, [0] + payload) == (s, Some([1] + c.publicKey(secret)))
    ensures |payload| == 32 ==>
              var key := c.mac(c.shared(secret, payload), LABEL);
              OnFrame(c, secret, handler, s, [2] + payload) ==
              (s.(auth := Auth(Some(key), true, Some(payload))), Some([3]))
    ensures |payload| != 32 ==> OnFrame(c, secret, handler, s, [2] + payload) == (s.(open := false), None)
    ensures forall kind: Byte :: kind == 1 || kind == 3 || kind > 4 ==>
                                   OnFrame(c, secret, handler, s, [kind] + payload) == (s.(open := false), None)
  {
    forall kind: Byte ensures ([kind] + payload)[1..] == payload {}
  }

  /** The answers to a call on the wire: a status byte, zero for a result and one for an error. */
  lemma Statuses(c: Crypto, bytes: Bytes, error: string)
    ensures Response(c, Ok(bytes)) == [0] + bytes && Response(c, Err(error)) == [1] + c.toUtf8(error)
    ensures ResultOf(c, [0] + bytes) == Ok(bytes) && ResultOf(c, [1] + bytes) == Err(c.fromUtf8Lossy(bytes))
  {}

  /** A message with a tag of 32 bytes is dispatched, for the client registered last, exactly when the tag is
      its authentication code under the key made of what the server shares with that client; otherwise the
      connection is closed without an answer. */
  lemma DispatchedIff(c: Crypto, secret: Bytes, handler: Handler, past: seq<Bytes>, s: Server, payload: Bytes,
                      tag: Bytes)
    requires Lawful(c) && Knows(c, secret, past, s) && |tag| == 32
    ensures
      var (s', reply) := OnFrame(c, secret, handler, s, [4] + payload + tag);
      var client := LastRegistered(past);
      var d := Dispatch(payload, client);
      if client.Some? && tag == c.mac(c.mac(c.shared(secret, client.value), LABEL), payload)
      then s' == s.(dispatched := s.dispatched + [d]) && reply == Some(Response(c, handler(|s.dispatched|, d)))
      else s' == s.(open := false) && reply == None
  {
    hide LastRegistered, AuthenticatedMessages, Response;
    var frame := [4] + payload + tag;
    assert frame[1..][..|payload|] == payload && frame[1..][|payload|..] == tag;
  }

  /** No two keys among these, nor their codes for the message, collide. */
  predicate Distinguishes(c: Crypto, shared: Bytes, other: Bytes, payload: Bytes) {
    var key, key' := c.mac(shared, LABEL), c.mac(other, LABEL);
    (key == key' ==> shared == other) && (c.mac(key, payload) == c.mac(key', payload) ==> key == key')
  }

  /** So a frame that is sealed under a key made of any other shared secret is not dispatched: it closes the
      connection. */
  lemma ForeignKeyCloses(c: Crypto, secret: Bytes, handler: Handler, past: seq<Bytes>, s: Server, client: Bytes,
                         other: Bytes, payload: Bytes)
    requires Lawful(c) && Knows(c, secret, past, s) && LastRegistered(past) == Some(client)
    requires other != c.shared(secret, client) && Distinguishes(c, c.shared(secret, client), other, payload)
    ensures OnFrame(c, secret, handler, s, [4] + payload + c.mac(c.mac(other, LABEL), payload)) ==
            (s.(open := false), None)
  {
    hide Knows, LastRegistered;
    DispatchedIff(c, secret, handler, past, s, payload, c.mac(c.mac(other, LABEL), payload));
  }

  /** A frame whose key does not come from the exchange at all is dispatched only by a collision. */
  lemma ForeignFrameNeverDispatched(c: Crypto, secret: Bytes, handler: Handler, past: seq<Bytes>, s: Server,
                                    client: Bytes, key: Bytes, payload: Bytes)
    requires Lawful(c) && Knows(c, secret, past, s) && LastRegistered(past) == Some(client)
    ensures
      var r := OnFrame(c, secret, handler, s, [4] + payload + c.mac(key, payload));
      r.0.dispatched != s.dispatched ==>
        c.mac(key, payload) == c.mac(c.mac(c.shared(secret, client), LABEL), payload)
  {
    hide Knows, LastRegistered;
    DispatchedIff(c, secret, handler, past, s, payload, c.mac(key, payload));
  }
}
