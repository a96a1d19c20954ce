/** The authorization payload: two length-prefixed fields and a password, as the Rust client and
    the signer page write it and the key daemon parses it. */
module Payload {
  import opened Wire
  import opened Wrappers

  datatype Fields = Fields(raw: Bytes, sig: Bytes, password: Bytes)

  function Encode(f: Fields): Bytes {
    Le32(|f.raw|) + f.raw + Le32(|f.sig|) + f.sig + f.password
  }

  /** The parser of the key daemon, with its three rejections. */
  function Decode(plaintext: Bytes): Result<Fields, string> {
    if |plaintext| < 8 then Err("invalid encrypted payload")
    else
      var rawLen := FromLe32(plaintext[0..4]);
      if |plaintext| < 4 + rawLen + 4 then Err("invalid encrypted payload: truncated")
      else
        var rawEnd := 4 + rawLen;
        var sigLen := FromLe32(plaintext[rawEnd..rawEnd + 4]);
        var sigStart := rawEnd + 4;
        var sigEnd := sigStart + sigLen;
        if |plaintext| < sigEnd then Err("invalid encrypted payload: truncated sig")
        else Ok(Fields(plaintext[4..rawEnd], plaintext[sigStart..sigEnd], plaintext[sigEnd..]))
  }

  /** The order of the parts: artifact and tag with their lengths before them, then the password. */
  lemma LayoutExample()
    ensures Encode(Fields([7], [8, 9], [10])) == [1, 0, 0, 0, 7, 2, 0, 0, 0, 8, 9, 10]
  {}

  lemma FiveParts(a: Bytes, b: Bytes, c: Bytes, d: Bytes, e: Bytes)
    ensures var p, i, j, k := a + b + c + d + e, |a| + |b|, |a| + |b| + |c|, |a| + |b| + |c| + |d|;
            p[0..|a|] == a && p[|a|..i] == b && p[i..j] == c && p[j..k] == d && p[k..] == e
  {}

  /** The parser on a payload whose parts and length fields are known. */
  lemma DecodeParts(p: Bytes, f: Fields)
    requires |p| == 8 + |f.raw| + |f.sig| + |f.password|
    requires p[4..4 + |f.raw|] == f.raw && p[8 + |f.raw|..8 + |f.raw| + |f.sig|] == f.sig &&
             p[8 + |f.raw| + |f.sig|..] == f.password
    requires FromLe32(p[0..4]) == |f.raw| && FromLe32(p[4 + |f.raw|..4 + |f.raw| + 4]) == |f.sig|
    ensures Decode(p) == Ok(f)
  {
    hide FromLe32;
  }

  /** Decoding inverts encoding exactly for fields whose lengths fit 32 bits. */
  lemma RoundTrip(f: Fields)
    ensures Decode(Encode(f)) == Ok(f) <==> |f.raw| < 0x1_0000_0000 && |f.sig| < 0x1_0000_0000
  {
    hide Le32, FromLe32, Decode;
    if |f.raw| < 0x1_0000_0000 && |f.sig| < 0x1_0000_0000 {
      Le32RoundTrip(|f.raw|);
      Le32RoundTrip(|f.sig|);
      FiveParts(Le32(|f.raw|), f.raw, Le32(|f.sig|), f.sig, f.password);
      DecodeParts(Encode(f), f);
    } else {
      DecodeExact(Encode(f));
    }
  }

  /** What the parser accepts is the encoding of what it returns, so no payload has two readings. */
  lemma DecodeExact(p: Bytes)
    ensures Decode(p).Ok? ==>
              var f := Decode(p).value;
              |f.raw| < 0x1_0000_0000 && |f.sig| < 0x1_0000_0000 && Encode(f) == p
  {
    hide Le32, FromLe32;
    if Decode(p).Ok? {
      var f := Decode(p).value;
      var rawEnd := 4 + |f.raw|;
      FromLe32RoundTrip(p[0..4]);
      FromLe32RoundTrip(p[rawEnd..rawEnd + 4]);
      assert p == p[0..4] + p[4..rawEnd] + p[rawEnd..rawEnd + 4] + p[rawEnd + 4..rawEnd + 4 + |f.sig|] +
                  p[rawEnd + 4 + |f.sig|..];
    }
  }

  /** The client's encoder: appends to a growing buffer. */
  method EncodeByExtending(f: Fields) returns (payload: Bytes)
    ensures payload == Encode(f)
  {
    hide Le32;
    payload := [];
    payload := payload + Le32(|f.raw|);
    payload := payload + f.raw;
    payload := payload + Le32(|f.sig|);
    payload := payload + f.sig;
    payload := payload + f.password;
  }

  /** A buffer begins with these bytes. */
  predicate Begins(buffer: array<Byte>, done: Bytes)
    reads buffer
  {
    |done| <= buffer.Length && buffer[..|done|] == done
  }

  lemma WholeBuffer(buffer: array<Byte>, done: Bytes)
    requires Begins(buffer, done) && |done| == buffer.Length
    ensures buffer[..] == done
  {
    assert buffer[..] == buffer[..|done|];
  }

  /** Copies a sequence into a buffer behind what has been written so far. */
  method SetBytes(buffer: array<Byte>, source: Bytes, offset: nat, ghost done: Bytes)
    requires |done| == offset && offset + |source| <= buffer.Length && Begins(buffer, done)
    modifies buffer
    ensures Begins(buffer, done + source)
  {
    for i := 0 to |source|
      invariant buffer[..offset + i] == done + source[..i]
    {
      buffer[offset + i] := source[i];
    }
  }

  /** The signer page's encoder: writes into a buffer of the final size. */
  method AssembleAuthorizePayload(f: Fields) returns (payload: Bytes)
    ensures payload == Encode(f)
  {
    hide Le32, Begins;
    var r, s, w := |f.raw|, |f.sig|, |f.password|;
    var buffer := new Byte[4 + r + 4 + s + w](_ => 0);
    ghost var done: Bytes := [];
    NothingWritten(buffer);
    SetBytes(buffer, Le32(r), 0, done);
    done := done + Le32(r);
    SetBytes(buffer, f.raw, 4, done);
    done := done + f.raw;
    SetBytes(buffer, Le32(s), 4 + r, done);
    done := done + Le32(s);
    SetBytes(buffer, f.sig, 8 + r, done);
    done := done + f.sig;
    SetBytes(buffer, f.password, 8 + r + s, done);
    WholeBuffer(buffer, done + f.password);
    payload := buffer[..];
  }

  lemma NothingWritten(buffer: array<Byte>)
    ensures Begins(buffer, [])
  {}
}
