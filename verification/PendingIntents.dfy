/** The file that keeps an intent between its submission and its approval. */
module PendingIntents {
  import opened Wire
  import opened Wrappers
  import opened Protocols

  /** The path is a string, given by its UTF-8 bytes. */
  datatype PendingIntent = PendingIntent(protocol: ProtocolId, publicKey: Bytes, path: Bytes, raw: Bytes, sig: Bytes)

  /** A load ends with an intent, with an error, or in an index out of bounds. */
  datatype Loaded = Loaded(intent: PendingIntent) | Rejected(message: string) | OutOfBounds

  const KEY_LEN := 32

  function ProtocolByte(id: ProtocolId): Byte {
    match id
    case Zcash => 0
    case Ethereum => 1
  }

  function Save(p: PendingIntent): Bytes {
    [ProtocolByte(p.protocol)] + p.publicKey + (Field(p.path) + (Field(p.raw) + Field(p.sig)))
  }

  function Load(buf: Bytes, isUtf8: Bytes -> bool): Loaded {
    if buf == [] then OutOfBounds
    else if buf[0] > 1 then Rejected("unknown protocol id")
    else if |buf| < 1 + KEY_LEN then OutOfBounds
    else
      match TakeField(buf[1 + KEY_LEN..])
      case None => OutOfBounds
      case Some((path, rest)) =>
        if !isUtf8(path) then Rejected("invalid derivation path")
        else
          match TakeField(rest)
          case None => OutOfBounds
          case Some((raw, rest)) =>
            match TakeField(rest)
            case None => OutOfBounds
            case Some((sig, _)) =>
              Loaded(PendingIntent(if buf[0] == 0 then Zcash else Ethereum, buf[1..1 + KEY_LEN], path, raw, sig))
  }

  /** The order of the parts: the protocol, the key, and path, artifact and tag with their lengths. */
  lemma LayoutExample(key: Bytes)
    ensures Save(PendingIntent(Zcash, key, [1], [2], [3, 4])) ==
            [0] + key + [1, 0, 0, 0, 1, 1, 0, 0, 0, 2, 2, 0, 0, 0, 3, 4]
    ensures Save(PendingIntent(Ethereum, key, [], [], [])) == [1] + key + [0, 0, 0, 0, 0, 0, 0, 0, 0, 0, 0, 0]
  {}

  predicate Storable(p: PendingIntent, isUtf8: Bytes -> bool) {
    |p.publicKey| == KEY_LEN && isUtf8(p.path) && |p.path| < 0x1_0000_0000 && |p.raw| < 0x1_0000_0000 &&
    |p.sig| < 0x1_0000_0000
  }

  /** What loads begins with its own encoding; the rest of the file is ignored. */
  lemma LoadExact(buf: Bytes, isUtf8: Bytes -> bool)
    ensures Load(buf, isUtf8).Loaded? ==>
              var p := Load(buf, isUtf8).intent;
              Storable(p, isUtf8) && Save(p) <= buf
  {
    hide Le32, TakeField, Field;
    if Load(buf, isUtf8).Loaded? {
      var p := Load(buf, isUtf8).intent;
      var a := buf[1 + KEY_LEN..];
      TakeFieldExact(a);
      var b := TakeField(a).value.1;
      TakeFieldExact(b);
      var c := TakeField(b).value.1;
      TakeFieldExact(c);
      var d := TakeField(c).value.1;
      assert buf == [buf[0]] + p.publicKey + a;
      assert buf == Save(p) + d;
    }
  }

  lemma SavedLoads(p: PendingIntent, tail: Bytes, isUtf8: Bytes -> bool)
    requires Storable(p, isUtf8)
    ensures Load(Save(p) + tail, isUtf8) == Loaded(p)
  {
    hide Le32, TakeField, Field;
    var buf := Save(p) + tail;
    var c := Field(p.sig) + tail;
    var b := Field(p.raw) + c;
    var a := Field(p.path) + b;
    assert buf == [ProtocolByte(p.protocol)] + p.publicKey + a;
    assert buf[1 + KEY_LEN..] == a && buf[1..1 + KEY_LEN] == p.publicKey;
    TakeFieldInverts(p.path, b);
    TakeFieldInverts(p.raw, c);
    TakeFieldInverts(p.sig, tail);
  }

  /** A saved intent loads again, whatever follows it, exactly when its lengths fit 32 bits. (The key
      is an array of 32 bytes and the path a string, so the other conditions always hold.) */
  lemma SaveLoadRoundTrip(p: PendingIntent, tail: Bytes, isUtf8: Bytes -> bool)
    ensures Load(Save(p) + tail, isUtf8) == Loaded(p) <==> Storable(p, isUtf8)
  {
    hide Load, Save;
    if Storable(p, isUtf8) {
      SavedLoads(p, tail, isUtf8);
    } else {
      LoadExact(Save(p) + tail, isUtf8);
    }
  }

  /** A file cut short anywhere does not load. */
  lemma TruncatedFileFails(p: PendingIntent, k: nat, isUtf8: Bytes -> bool)
    requires Storable(p, isUtf8) && k < |Save(p)|
    ensures !Load(Save(p)[..k], isUtf8).Loaded?
  {
    hide Load, Save;
    var cut, rest := Save(p)[..k], Save(p)[k..];
    if Load(cut, isUtf8).Loaded? {
      var q := Load(cut, isUtf8).intent;
      LoadExact(cut, isUtf8);
      var tail := cut[|Save(q)|..] + rest;
      assert Save(q) + tail == Save(p) + [];
      SavedLoads(q, tail, isUtf8);
      SavedLoads(p, [], isUtf8);
      assert false;
    }
  }

  /** The writer: appends to a growing buffer. */
  method SavePendingIntent(p: PendingIntent) returns (buf: Bytes)
    ensures buf == Save(p)
  {
    hide Le32;
    buf := [];
    buf := buf + [ProtocolByte(p.protocol)];
    buf := buf + p.publicKey;
    buf := buf + Le32(|p.path|);
    buf := buf + p.path;
    buf := buf + Le32(|p.raw|);
    buf := buf + p.raw;
    buf := buf + Le32(|p.sig|);
    buf := buf + p.sig;
  }

  /** One field behind a moving position. */
  method ReadField(buf: Bytes, pos: nat) returns (field: Option<Bytes>, next: nat)
    requires pos <= |buf|
    ensures pos <= next <= |buf|
    ensures TakeField(buf[pos..]) == if field.None? then None else Some((field.value, buf[next..]))
  {
    hide FromLe32;
    next := pos;
    if |buf| < pos + 4 {
      return None, pos;
    }
    assert buf[pos..][..4] == buf[pos..pos + 4];
    var len := FromLe32(buf[pos..pos + 4]);
    next := pos + 4;
    if |buf| < next + len {
      return None, next;
    }
    field := Some(buf[next..next + len]);
    assert buf[pos..][4..4 + len] == buf[next..next + len];
    next := next + len;
    assert buf[pos..][4 + len..] == buf[next..];
  }

  /** The reader: moves a position through the file. */
  method LoadPendingIntent(buf: Bytes, isUtf8: Bytes -> bool) returns (loaded: Loaded)
    ensures loaded == Load(buf, isUtf8)
  {
    hide TakeField;
    var pos: nat := 0;
    if pos >= |buf| {
      return OutOfBounds;
    }
    if buf[pos] > 1 {
      return Rejected("unknown protocol id");
    }
    var protocol := if buf[pos] == 0 then Zcash else Ethereum;
    pos := pos + 1;
    if |buf| < pos + KEY_LEN {
      return OutOfBounds;
    }
    var publicKey := buf[pos..pos + KEY_LEN];
    pos := pos + KEY_LEN;
    var field;
    field, pos := ReadField(buf, pos);
    if field.None? {
      return OutOfBounds;
    }
    var path := field.value;
    if !isUtf8(path) {
      return Rejected("invalid derivation path");
    }
    field, pos := ReadField(buf, pos);
    if field.None? {
      return OutOfBounds;
    }
    var raw := field.value;
    field, pos := ReadField(buf, pos);
    if field.None? {
      return OutOfBounds;
    }
    return Loaded(PendingIntent(protocol, publicKey, path, raw, field.value));
  }
}
