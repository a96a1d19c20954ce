/** The segment decoders of the QR data stream (section 7.4 of ISO/IEC 18004:2015): what they
    read from a bit position, and the encodings they invert. */
module Segments {
  import opened Wrappers
  import opened BitStreams

  /** A decoded segment. The text of byte and Kanji segments is not modelled. */
  datatype Chunk =
    | Numeric(text: string)
    | Alphanumeric(text: string)
    | Bytes(data: seq<nat>)
    | Kanji(codes: seq<nat>)
    | Eci(assignmentNumber: int)

  type Parse<+T> = Option<(T, nat)>

  const ALPHANUMERIC := "0123456789" + "ABCDEFGHIJKLMNOPQRSTUVWXYZ" + " $%*+-./:"

  function Digit(d: nat): char
    requires d < 10
  {
    (48 + d) as char
  }

  function ThreeDigits(n: nat): string
    requires n < 1000
  {
    [Digit(n / 100), Digit(n / 10 % 10), Digit(n % 10)]
  }

  function TwoDigits(n: nat): string
    requires n < 100
  {
    [Digit(n / 10), Digit(n % 10)]
  }

  function Pair(v: nat): string
    requires v < 2025
  {
    [ALPHANUMERIC[v / 45], ALPHANUMERIC[v % 45]]
  }

  function Codes(text: string): seq<nat> {
    seq(|text|, i requires 0 <= i < |text| => text[i] as int)
  }

  function Prepend<T>(front: seq<T>, rest: Parse<seq<T>>): Parse<seq<T>> {
    match rest
    case None => None
    case Some((items, next)) => Some((front + items, next))
  }


  // ----- What the decoders read at bit position p

  /** Digits in groups of three, then two or one. */
  function ParseDigits(b: seq<Byte>, p: nat, length: nat): Parse<string>
    requires p <= 8 * |b|
    ensures ParseDigits(b, p, length).Some? ==> p <= ParseDigits(b, p, length).value.1 <= 8 * |b|
    decreases length
  {
    if length >= 3 then
      if p + 10 > 8 * |b| || Field(b, p, 10) >= 1000 then None
      else
        Prepend(ThreeDigits(Field(b, p, 10)), ParseDigits(b, p + 10, length - 3))
    else if length == 2 then
      if p + 7 > 8 * |b| || Field(b, p, 7) >= 100 then None
      else Some((TwoDigits(Field(b, p, 7)), p + 7))
    else if length == 1 then
      if p + 4 > 8 * |b| || Field(b, p, 4) >= 10 then None
      else Some(([Digit(Field(b, p, 4))], p + 4))
    else Some(("", p))
  }

  /** Pairs of characters in 11 bits, a last one in 6; values past the table make the source throw. */
  function ParsePairs(b: seq<Byte>, p: nat, length: nat): Parse<string>
    requires p <= 8 * |b|
    ensures ParsePairs(b, p, length).Some? ==> p <= ParsePairs(b, p, length).value.1 <= 8 * |b|
    decreases length
  {
    if length >= 2 then
      if p + 11 > 8 * |b| || Field(b, p, 11) / 45 >= 45 then None
      else
        Prepend(Pair(Field(b, p, 11)), ParsePairs(b, p + 11, length - 2))
    else if length == 1 then
      if p + 6 > 8 * |b| || Field(b, p, 6) >= 45 then None
      else Some(([ALPHANUMERIC[Field(b, p, 6)]], p + 6))
    else Some(("", p))
  }

  function ParseBytes(b: seq<Byte>, p: nat, length: nat): Parse<seq<nat>>
    requires p <= 8 * |b|
    ensures ParseBytes(b, p, length).Some? ==> p <= ParseBytes(b, p, length).value.1 <= 8 * |b|
    decreases length
  {
    if length == 0 then Some(([], p))
    else if p + 8 > 8 * |b| then None
    else Prepend([Field(b, p, 8)], ParseBytes(b, p + 8, length - 1))
  }

  /** The Shift JIS code packed into 13 bits. */
  function KanjiCode(k: nat): nat {
    var c := k / 0xC0 * 256 + k % 0xC0;
    if c < 0x1F00 then c + 0x8140 else c + 0xC140
  }

  function ParseKanji(b: seq<Byte>, p: nat, length: nat): Parse<seq<nat>>
    requires p <= 8 * |b|
    ensures ParseKanji(b, p, length).Some? ==> p <= ParseKanji(b, p, length).value.1 <= 8 * |b|
    decreases length
  {
    if length == 0 then Some(([], p))
    else if p + 13 > 8 * |b| then None
    else Prepend([KanjiCode(Field(b, p, 13))], ParseKanji(b, p + 13, length - 1))
  }

  function ParseEci(b: seq<Byte>, p: nat): Parse<int>
    requires p <= 8 * |b|
    ensures ParseEci(b, p).Some? ==> p <= ParseEci(b, p).value.1 <= 8 * |b|
  {
    if p + 1 > 8 * |b| then None
    else if Field(b, p, 1) == 0 then if p + 8 > 8 * |b| then None else Some((Field(b, p + 1, 7), p + 8))
    else if p + 2 > 8 * |b| then None
    else if Field(b, p + 1, 1) == 0 then if p + 16 > 8 * |b| then None else Some((Field(b, p + 2, 14), p + 16))
    else if p + 3 > 8 * |b| then None
    else if Field(b, p + 2, 1) == 0 then if p + 24 > 8 * |b| then None else Some((Field(b, p + 3, 21), p + 24))
    else Some((-1, p + 3))
  }

  /** The body of a segment of the given mode; unknown modes are skipped. */
  function ParseBody(b: seq<Byte>, p: nat, mode: nat, size: nat): Parse<seq<Chunk>>
    requires p <= 8 * |b| && size <= 2
    ensures ParseBody(b, p, mode, size).Some? ==> p <= ParseBody(b, p, mode, size).value.1 <= 8 * |b|
  {
    if mode == 7 then
      match ParseEci(b, p) case None => None case Some((n, next)) => Some(([Eci(n)], next))
    else if mode == 1 then
      var count := [10, 12, 14][size];
      if p + count > 8 * |b| then None
      else
        (match ParseDigits(b, p + count, Field(b, p, count))
         case None => None
         case Some((t, next)) => Some(([Numeric(t)], next)))
    else if mode == 2 then
      var count := [9, 11, 13][size];
      if p + count > 8 * |b| then None
      else
        (match ParsePairs(b, p + count, Field(b, p, count))
         case None => None
         case Some((t, next)) => Some(([Alphanumeric(t)], next)))
    else if mode == 4 then
      var count := [8, 16, 16][size];
      if p + count > 8 * |b| then None
      else
        (match ParseBytes(b, p + count, Field(b, p, count))
         case None => None
         case Some((d, next)) => Some(([Bytes(d)], next)))
    else if mode == 8 then
      var count := [8, 10, 12][size];
      if p + count > 8 * |b| then None
      else
        (match ParseKanji(b, p + count, Field(b, p, count))
         case None => None
         case Some((d, next)) => Some(([Kanji(d)], next)))
    else Some(([], p))
  }

  /** All segments from p to the terminator or the end of the data. */
  function ParseSegments(b: seq<Byte>, p: nat, size: nat): Option<seq<Chunk>>
    requires p <= 8 * |b| && size <= 2
    decreases 8 * |b| - p
  {
    if 8 * |b| - p >= 4 then
      if Field(b, p, 4) == 0 then Some([])
      else match ParseBody(b, p + 4, Field(b, p, 4), size)
           case None => None
           case Some((chunks, next)) =>
             match ParseSegments(b, next, size)
             case None => None
             case Some(rest) => Some(chunks + rest)
    else if Field(b, p, 8 * |b| - p) == 0 then Some([])
    else None
  }

  // ----- The decoders

  /** Reads a field of at most 31 bits. */
  method Read(stream: BitStream, n: nat) returns (r: Option<nat>)
    requires stream.Valid() && 1 <= n <= 31
    modifies stream
    ensures stream.Valid()
    ensures r == None <==> old(stream.Position()) + n > 8 * |stream.bytes|
    ensures r.Some? ==> stream.Position() == old(stream.Position()) + n
    ensures r.Some? ==> r.value == Field(stream.bytes, old(stream.Position()), n)
  {
    hide Field, ToInt32;
    var result := stream.ReadBits(n);
    match result {
      case Err(_) => return None;
      case Ok(v) =>
        FieldRepresented(stream.bytes, old(stream.Position()), n);
        return Some(v);
    }
  }

  /** The parser p, read at the start, delivered r and left the stream where it ends. */
  ghost predicate Delivered<T(!new)>(stream: BitStream, p: Parse<T>, r: Option<T>)
    reads stream
  {
    match r
    case None => p == None
    case Some(v) => p == Some((v, stream.Position()))
  }

  lemma PrependPrepend<T>(a: seq<T>, b: seq<T>, rest: Parse<seq<T>>)
    ensures Prepend(a, Prepend(b, rest)) == Prepend(a + b, rest)
  {
    if rest.Some? {
      assert a + (b + rest.value.0) == a + b + rest.value.0;
    }
  }

  lemma PrependEmpty<T>(rest: Parse<seq<T>>)
    ensures Prepend([], rest) == rest
  {
    if rest.Some? {
      assert [] + rest.value.0 == rest.value.0;
    }
  }

  lemma CodesAppend(text: string, more: string)
    ensures Codes(text + more) == Codes(text) + Codes(more)
  {}

  lemma DigitCodes(n: nat)
    ensures n < 1000 ==> Codes(ThreeDigits(n)) == [48 + n / 100, 48 + n / 10 % 10, 48 + n % 10]
    ensures n < 100 ==> Codes(TwoDigits(n)) == [48 + n / 10, 48 + n % 10]
    ensures n < 10 ==> Codes([Digit(n)]) == [48 + n]
  {}

  /** What is left to parse after text, group by group. */
  lemma DigitGroups(b: seq<Byte>, p: nat, length: nat, text: string)
    requires p <= 8 * |b|
    ensures length >= 3 ==>
              Prepend(text, ParseDigits(b, p, length)) ==
              if p + 10 > 8 * |b| || Field(b, p, 10) >= 1000 then None
              else Prepend(text + ThreeDigits(Field(b, p, 10)), ParseDigits(b, p + 10, length - 3))
    ensures length == 2 ==>
              Prepend(text, ParseDigits(b, p, length)) ==
              if p + 7 > 8 * |b| || Field(b, p, 7) >= 100 then None else Some((text + TwoDigits(Field(b, p, 7)), p + 7))
    ensures length == 1 ==>
              Prepend(text, ParseDigits(b, p, length)) ==
              if p + 4 > 8 * |b| || Field(b, p, 4) >= 10 then None else Some((text + [Digit(Field(b, p, 4))], p + 4))
    ensures length == 0 ==> Prepend(text, ParseDigits(b, p, length)) == Some((text, p))
  {
    hide Field, ThreeDigits, TwoDigits, Digit;
    if length >= 3 && p + 10 <= 8 * |b| && Field(b, p, 10) < 1000 {
      PrependPrepend(text, ThreeDigits(Field(b, p, 10)), ParseDigits(b, p + 10, length - 3));
    }
    assert text + "" == text;
  }

  method DecodeNumeric(stream: BitStream, size: nat) returns (bytes: seq<nat>, r: Option<string>)
    requires stream.Valid() && size <= 2
    modifies stream
    ensures stream.Valid()
    ensures var p, count := old(stream.Position()), [10, 12, 14][size];
            if p + count > 8 * |stream.bytes| then r == None
            else Delivered(stream, ParseDigits(stream.bytes, p + count, Field(stream.bytes, p, count)), r)
    ensures r.Some? ==> bytes == Codes(r.value)
  {
    hide Field, ParseDigits, Prepend, Codes, Digit, ThreeDigits, TwoDigits;
    ghost var b := stream.bytes;
    bytes := [];
    var text := "";
    var characterCountSize := [10, 12, 14][size];
    var count := Read(stream, characterCountSize);
    if count == None { return bytes, None; }
    var length := count.value;
    ghost var whole := ParseDigits(b, stream.Position(), length);
    PrependEmpty(whole);
    NoCodes();
    while length >= 3
      invariant stream.Valid() && bytes == Codes(text)
      invariant whole == Prepend(text, ParseDigits(b, stream.Position(), length))
    {
      DigitGroups(b, stream.Position(), length, text);
      var num := Read(stream, 10);
      if num == None || num.value >= 1000 { return bytes, None; }
      DigitCodes(num.value);
      CodesAppend(text, ThreeDigits(num.value));
      bytes := bytes + [48 + num.value / 100, 48 + num.value / 10 % 10, 48 + num.value % 10];
      text := text + ThreeDigits(num.value);
      length := length - 3;
    }
    DigitGroups(b, stream.Position(), length, text);
    if length == 2 {
      var num := Read(stream, 7);
      if num == None || num.value >= 100 { return bytes, None; }
      DigitCodes(num.value);
      CodesAppend(text, TwoDigits(num.value));
      bytes := bytes + [48 + num.value / 10, 48 + num.value % 10];
      text := text + TwoDigits(num.value);
    } else if length == 1 {
      var num := Read(stream, 4);
      if num == None || num.value >= 10 { return bytes, None; }
      DigitCodes(num.value);
      CodesAppend(text, [Digit(num.value)]);
      bytes := bytes + [48 + num.value];
      text := text + [Digit(num.value)];
    }
    return bytes, Some(text);
  }

  lemma NoCodes()
    ensures Codes("") == []
  {}

  lemma PairCodes(v: nat)
    ensures v < 2025 ==> v % 45 < 45 && Codes(Pair(v)) == [ALPHANUMERIC[v / 45] as int, ALPHANUMERIC[v % 45] as int]
    ensures v < 45 ==> Codes([ALPHANUMERIC[v]]) == [ALPHANUMERIC[v] as int]
  {}

  lemma PairGroups(b: seq<Byte>, p: nat, length: nat, text: string)
    requires p <= 8 * |b|
    ensures length >= 2 ==>
              Prepend(text, ParsePairs(b, p, length)) ==
              if p + 11 > 8 * |b| || Field(b, p, 11) / 45 >= 45 then None
              else Prepend(text + Pair(Field(b, p, 11)), ParsePairs(b, p + 11, length - 2))
    ensures length == 1 ==>
              Prepend(text, ParsePairs(b, p, length)) ==
              if p + 6 > 8 * |b| || Field(b, p, 6) >= 45 then None
              else Some((text + [ALPHANUMERIC[Field(b, p, 6)]], p + 6))
    ensures length == 0 ==> Prepend(text, ParsePairs(b, p, length)) == Some((text, p))
  {
    hide Field, Pair;
    if length >= 2 && p + 11 <= 8 * |b| && Field(b, p, 11) / 45 < 45 {
      PrependPrepend(text, Pair(Field(b, p, 11)), ParsePairs(b, p + 11, length - 2));
    }
    assert text + "" == text;
  }

  method DecodeAlphanumeric(stream: BitStream, size: nat) returns (bytes: seq<nat>, r: Option<string>)
    requires stream.Valid() && size <= 2
    modifies stream
    ensures stream.Valid()
    ensures var p, count := old(stream.Position()), [9, 11, 13][size];
            if p + count > 8 * |stream.bytes| then r == None
            else Delivered(stream, ParsePairs(stream.bytes, p + count, Field(stream.bytes, p, count)), r)
    ensures r.Some? ==> bytes == Codes(r.value)
  {
    hide Field, ParsePairs, Prepend, Codes, Pair;
    ghost var b := stream.bytes;
    bytes := [];
    var text := "";
    var characterCountSize := [9, 11, 13][size];
    var count := Read(stream, characterCountSize);
    if count == None { return bytes, None; }
    var length := count.value;
    ghost var whole := ParsePairs(b, stream.Position(), length);
    PrependEmpty(whole);
    NoCodes();
    while length >= 2
      invariant stream.Valid() && bytes == Codes(text)
      invariant whole == Prepend(text, ParsePairs(b, stream.Position(), length))
    {
      PairGroups(b, stream.Position(), length, text);
      var v := Read(stream, 11);
      if v == None || v.value / 45 >= 45 { return bytes, None; }
      PairCodes(v.value);
      CodesAppend(text, Pair(v.value));
      bytes := bytes + [ALPHANUMERIC[v.value / 45] as int, ALPHANUMERIC[v.value % 45] as int];
      text := text + Pair(v.value);
      length := length - 2;
    }
    PairGroups(b, stream.Position(), length, text);
    if length == 1 {
      var v := Read(stream, 6);
      if v == None || v.value >= 45 { return bytes, None; }
      PairCodes(v.value);
      CodesAppend(text, [ALPHANUMERIC[v.value]]);
      bytes := bytes + [ALPHANUMERIC[v.value] as int];
      text := text + [ALPHANUMERIC[v.value]];
    }
    return bytes, Some(text);
  }

  method DecodeByte(stream: BitStream, size: nat) returns (r: Option<seq<nat>>)
    requires stream.Valid() && size <= 2
    modifies stream
    ensures stream.Valid()
    ensures var p, count := old(stream.Position()), [8, 16, 16][size];
            if p + count > 8 * |stream.bytes| then r == None
            else Delivered(stream, ParseBytes(stream.bytes, p + count, Field(stream.bytes, p, count)), r)
  {
    hide Field;
    ghost var b := stream.bytes;
    var bytes: seq<nat> := [];
    var count := Read(stream, [8, 16, 16][size]);
    if count == None { return None; }
    var length := count.value;
    ghost var whole := ParseBytes(b, stream.Position(), length);
    PrependEmpty(whole);
    for i := 0 to length
      invariant stream.Valid()
      invariant whole == Prepend(bytes, ParseBytes(b, stream.Position(), length - i))
    {
      ghost var p := stream.Position();
      var v := Read(stream, 8);
      if v == None { return None; }
      PrependPrepend(bytes, [v.value], ParseBytes(b, p + 8, length - i - 1));
      bytes := bytes + [v.value];
    }
    assert bytes + [] == bytes;
    return Some(bytes);
  }

  method DecodeKanji(stream: BitStream, size: nat) returns (bytes: seq<nat>, r: Option<seq<nat>>)
    requires stream.Valid() && size <= 2
    modifies stream
    ensures stream.Valid()
    ensures var p, count := old(stream.Position()), [8, 10, 12][size];
            if p + count > 8 * |stream.bytes| then r == None
            else Delivered(stream, ParseKanji(stream.bytes, p + count, Field(stream.bytes, p, count)), r)
    ensures r.Some? ==> bytes == KanjiBytes(r.value)
  {
    hide Field;
    ghost var b := stream.bytes;
    bytes := [];
    var codes: seq<nat> := [];
    var count := Read(stream, [8, 10, 12][size]);
    if count == None { return bytes, None; }
    var length := count.value;
    ghost var whole := ParseKanji(b, stream.Position(), length);
    PrependEmpty(whole);
    for i := 0 to length
      invariant stream.Valid() && bytes == KanjiBytes(codes)
      invariant whole == Prepend(codes, ParseKanji(b, stream.Position(), length - i))
    {
      ghost var p := stream.Position();
      var k := Read(stream, 13);
      if k == None { return bytes, None; }
      var c := k.value / 0xC0 * 256 + k.value % 0xC0;
      if c < 0x1F00 {
        c := c + 0x8140;
      } else {
        c := c + 0xC140;
      }
      PrependPrepend(codes, [c], ParseKanji(b, p + 13, length - i - 1));
      assert (codes + [c])[..|codes|] == codes;
      bytes := bytes + [c / 256, c % 256];
      codes := codes + [c];
    }
    assert codes + [] == codes;
    return bytes, Some(codes);
  }

  /** Two bytes for every code. */
  function KanjiBytes(codes: seq<nat>): seq<nat> {
    if |codes| == 0 then []
    else KanjiBytes(codes[..|codes| - 1]) + [codes[|codes| - 1] / 256, codes[|codes| - 1] % 256]
  }

  method DecodeEci(stream: BitStream) returns (r: Option<int>)
    requires stream.Valid()
    modifies stream
    ensures stream.Valid()
    ensures Delivered(stream, ParseEci(stream.bytes, old(stream.Position())), r)
  {
    hide Field;
    var first := Read(stream, 1);
    if first == None { return None; }
    if first.value == 0 {
      r := Read(stream, 7);
      return;
    }
    var second := Read(stream, 1);
    if second == None { return None; }
    if second.value == 0 {
      r := Read(stream, 14);
      return;
    }
    var third := Read(stream, 1);
    if third == None { return None; }
    if third.value == 0 {
      r := Read(stream, 21);
      return;
    }
    return Some(-1);
  }

  /** The bytes a chunk contributes to the result. */
  function ChunkBytes(c: Chunk): seq<nat> {
    match c
    case Numeric(t) => Codes(t)
    case Alphanumeric(t) => Codes(t)
    case Bytes(d) => d
    case Kanji(codes) => KanjiBytes(codes)
    case Eci(_) => []
  }

  function AllBytes(chunks: seq<Chunk>): seq<nat> {
    if |chunks| == 0 then [] else AllBytes(chunks[..|chunks| - 1]) + ChunkBytes(chunks[|chunks| - 1])
  }

  method DecodeBody(stream: BitStream, mode: nat, size: nat) returns (bytes: seq<nat>, r: Option<seq<Chunk>>)
    requires stream.Valid() && size <= 2
    modifies stream
    ensures stream.Valid()
    ensures Delivered(stream, ParseBody(stream.bytes, old(stream.Position()), mode, size), r)
    ensures r.Some? ==> |r.value| <= 1 && bytes == AllBytes(r.value)
  {
    hide Field, ParseDigits, ParsePairs, ParseBytes, ParseKanji, ParseEci, KanjiBytes, Codes;
    bytes := [];
    if mode == 7 {
      var n := DecodeEci(stream);
      if n == None { return bytes, None; }
      return bytes, Some([Eci(n.value)]);
    } else if mode == 1 {
      var text;
      bytes, text := DecodeNumeric(stream, size);
      if text == None { return bytes, None; }
      r := Some([Numeric(text.value)]);
    } else if mode == 2 {
      var text;
      bytes, text := DecodeAlphanumeric(stream, size);
      if text == None { return bytes, None; }
      r := Some([Alphanumeric(text.value)]);
    } else if mode == 4 {
      var data := DecodeByte(stream, size);
      if data == None { return bytes, None; }
      bytes := data.value;
      r := Some([Bytes(data.value)]);
    } else if mode == 8 {
      var codes;
      bytes, codes := DecodeKanji(stream, size);
      if codes == None { return bytes, None; }
      r := Some([Kanji(codes.value)]);
    } else {
      r := Some([]);
      return;
    }
    assert r.value[..0] == [];
    assert AllBytes(r.value) == AllBytes([]) + ChunkBytes(r.value[0]);
  }

  /** Decodes the data bytes of a symbol of the given version; None for a thrown error or no result. */
  method DecodeData(data: seq<Byte>, version: nat) returns (bytes: seq<nat>, r: Option<seq<Chunk>>)
    ensures r == ParseSegments(data, 0, SizeClass(version))
    ensures r.Some? ==> bytes == AllBytes(r.value)
  {
    hide Field, ParseBody, Delivered, ParseSegments, AllBytes;
    var stream := new BitStream(data);
    var size := if version <= 9 then 0 else if version <= 26 then 1 else 2;
    bytes := [];
    var chunks: seq<Chunk> := [];
    ghost var whole := ParseSegments(data, 0, size);
    NothingYet(whole);
    while stream.Available() >= 4
      invariant stream.Valid() && fresh(stream) && stream.bytes == data
      invariant whole == AppendRest(chunks, ParseSegments(data, stream.Position(), size))
      invariant bytes == AllBytes(chunks)
      decreases stream.Available()
    {
      NextSegment(data, stream.Position(), size, chunks);
      ghost var p := stream.Position();
      var mode := Read(stream, 4);
      if mode.value == 0 {
        return bytes, Some(chunks);
      }
      var more, body := DecodeBody(stream, mode.value, size);
      DeliveredNext(stream, ParseBody(data, p + 4, mode.value, size), body);
      if body == None {
        return bytes, None;
      }
      AllBytesAppend(chunks, body.value);
      bytes := bytes + more;
      chunks := chunks + body.value;
    }
    NextSegment(data, stream.Position(), size, chunks);
    if stream.Available() == 0 {
      ZeroBits(data, stream.Position());
      return bytes, Some(chunks);
    }
    var last := Read(stream, stream.Available());
    if last.value == 0 {
      return bytes, Some(chunks);
    }
    return bytes, None;
  }

  lemma NothingYet(whole: Option<seq<Chunk>>)
    ensures AppendRest([], whole) == whole && AllBytes([]) == []
  {
    if whole.Some? {
      assert [] + whole.value == whole.value;
    }
  }

  lemma NextSegment(b: seq<Byte>, p: nat, size: nat, chunks: seq<Chunk>)
    requires p <= 8 * |b| && size <= 2
    ensures 8 * |b| - p < 4 ==>
              AppendRest(chunks, ParseSegments(b, p, size)) == if Field(b, p, 8 * |b| - p) == 0 then Some(chunks)
              else None
    ensures 8 * |b| - p >= 4 && Field(b, p, 4) == 0 ==> AppendRest(chunks, ParseSegments(b, p, size)) == Some(chunks)
    ensures 8 * |b| - p >= 4 && Field(b, p, 4) != 0 ==>
              var body := ParseBody(b, p + 4, Field(b, p, 4), size);
              AppendRest(chunks, ParseSegments(b, p, size)) ==
              if body == None then None else AppendRest(chunks + body.value.0, ParseSegments(b, body.value.1, size))
  {
    hide Field, ParseBody;
    assert chunks + [] == chunks;
    if 8 * |b| - p >= 4 && Field(b, p, 4) != 0 {
      var body := ParseBody(b, p + 4, Field(b, p, 4), size);
      if body.Some? {
        var rest := ParseSegments(b, body.value.1, size);
        if rest.Some? {
          assert chunks + (body.value.0 + rest.value) == chunks + body.value.0 + rest.value;
        }
      }
    }
  }

  function SizeClass(version: nat): (size: nat)
    ensures size <= 2
  {
    if version <= 9 then 0 else if version <= 26 then 1 else 2
  }

  ghost function AppendRest(chunks: seq<Chunk>, rest: Option<seq<Chunk>>): Option<seq<Chunk>> {
    match rest case None => None case Some(more) => Some(chunks + more)
  }

  lemma ZeroBits(b: seq<Byte>, p: nat)
    requires p == 8 * |b|
    ensures Field(b, p, 0) == 0
  {}

  lemma DeliveredNext<T(!new)>(stream: BitStream, p: Parse<T>, r: Option<T>)
    requires Delivered(stream, p, r)
    ensures r == None ==> p == None
    ensures r.Some? ==> p == Some((r.value, stream.Position()))
  {}

  lemma AllBytesAppend(chunks: seq<Chunk>, more: seq<Chunk>)
    requires |more| <= 1
    ensures AllBytes(chunks + more) == AllBytes(chunks) + AllBytes(more)
  {
    if |more| == 0 {
      assert chunks + more == chunks;
    } else {
      assert (chunks + more)[..|chunks|] == chunks;
      assert more[..0] == [];
    }
  }
}
