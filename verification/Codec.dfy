/** The UDP wire format of concrete/src/AMessage.cpp, MessageSend.cpp and
    MessageReceive.cpp, and the receive guard of MinionProxy.cpp and MasterProxy.cpp. */
module Codec {
  import opened Types
  import opened Arithmetic

  const U32: nat := 0x1_0000_0000
  const U64: nat := 0x1_0000_0000_0000_0000
  const BUFSIZ: nat := 8192

  /** The four message classes with their fields. A write request carries one
      byte more than its length. */
  datatype Message =
    | ReadSend(uid: nat, offset: nat, length: nat)
    | WriteSend(uid: nat, offset: nat, length: nat, data: seq<Byte>)
    | ReadReceive(uid: nat, result: bool, length: nat, data: seq<Byte>)
    | WriteReceive(uid: nat, result: bool)

  /** Every `size_t` field fits and the payload has the size the class keeps. */
  predicate WellFormed(m: Message)
  {
    && m.uid < U64
    && match m
       case ReadSend(_, offset, length) => offset < U64 && length < U64
       case WriteSend(_, offset, length, data) =>
         offset < U64 && length < U64 && |data| == length + 1
       case ReadReceive(_, _, length, data) => length < U64 && |data| == length
       case WriteReceive(_, _) => true
  }

  function Kind(m: Message): nat
  {
    match m
    case ReadSend(_, _, _) => 0
    case WriteSend(_, _, _, _) => 1
    case ReadReceive(_, _, _, _) => 2
    case WriteReceive(_, _) => 3
  }

  /** `GetSize` before its conversion to `uint32_t`. */
  function Size(m: Message): nat
  {
    16 + match m
         case ReadSend(_, _, _) => 16
         case WriteSend(_, _, length, _) => 16 + length + 1
         case ReadReceive(_, _, length, _) => 9 + length
         case WriteReceive(_, _) => 1
  }

  // ----- Little-endian words ------------------------------------------------------

  /** The low `width` bytes of `v`, lowest first. */
  function Word(v: nat, width: nat): (r: seq<Byte>)
    ensures |r| == width
  {
    if width == 0 then [] else [v % 256] + Word(v / 256, width - 1)
  }

  function Value(s: seq<Byte>): nat
  {
    if s == [] then 0 else s[0] + 256 * Value(s[1..])
  }

  function Power256(width: nat): (r: nat)
    ensures r > 0
  {
    if width == 0 then 1 else 256 * Power256(width - 1)
  }

  /** Reading back a stored word gives the value if it fits the width. */
  lemma {:induction false} WordRoundTrip(v: nat, width: nat)
    requires v < Power256(width)
    ensures Value(Word(v, width)) == v
  {
    if width > 0 {
      WordRoundTrip(v / 256, width - 1);
      assert Word(v, width)[1..] == Word(v / 256, width - 1);
    }
  }

  lemma Word4(v: nat)
    requires v < U32
    ensures Value(Word(v, 4)) == v
  {
    Widths();
    WordRoundTrip(v, 4);
  }

  lemma Word8(v: nat)
    requires v < U64
    ensures Value(Word(v, 8)) == v
  {
    Widths();
    WordRoundTrip(v, 8);
  }

  /** Byte `k` of the little-endian form of `v`. */
  function ByteOf(v: nat, k: nat): Byte
  {
    (v / Power256(k)) % 256
  }

  lemma NextByte(v: nat, k: nat)
    ensures ByteOf(v, k + 1) == ByteOf(v / 256, k)
  {
    var d := Power256(k);
    DivMod(v, 256);
    DivMod(v / 256, d);
    Regrouped(v / 256 / d, d, (v / 256) % d);
    DivModUnique(v, 256 * d, v / 256 / d, 256 * ((v / 256) % d) + v % 256);
  }

  lemma Regrouped(q: nat, d: nat, r: nat)
    ensures 256 * (q * d + r) == q * (256 * d) + 256 * r
  {
  }

  /** `b` holds `v` in little-endian order in the `width` bytes from `at` on. */
  ghost predicate WordAt(b: seq<Byte>, at: nat, width: nat, v: nat)
  {
    at + width <= |b| && forall k: nat | k < width :: b[at + k] == ByteOf(v, k)
  }

  /** What is stored for `v` is its little-endian form. */
  lemma {:induction false} WordIsLittleEndian(v: nat, width: nat)
    ensures WordAt(Word(v, width), 0, width, v)
  {
    if width > 0 {
      WordIsLittleEndian(v / 256, width - 1);
      forall k: nat | k < width
        ensures Word(v, width)[k] == ByteOf(v, k)
      {
        if k == 0 {
          assert v / 1 == v;
        } else {
          NextByte(v, k - 1);
          assert Word(v, width)[k] == Word(v / 256, width - 1)[k - 1];
        }
      }
    }
  }

  lemma WordAtIsSlice(b: seq<Byte>, at: nat, width: nat, v: nat)
    requires at + width <= |b|
    ensures WordAt(b, at, width, v) <==> b[at..at + width] == Word(v, width)
  {
    WordIsLittleEndian(v, width);
    if WordAt(b, at, width, v) {
      forall k: nat | k < width
        ensures b[at..at + width][k] == Word(v, width)[k]
      {
        assert b[at + k] == ByteOf(v, k);
      }
    } else {
      var k: nat :| k < width && b[at + k] != ByteOf(v, k);
      assert b[at..at + width][k] == b[at + k];
    }
  }

  lemma {:induction false} WordOfValue(s: seq<Byte>)
    ensures Value(s) < Power256(|s|) && Word(Value(s), |s|) == s
  {
    if s != [] {
      WordOfValue(s[1..]);
      assert s == [s[0]] + s[1..];
    }
  }

  /** Loading a word yields `v` exactly if its bytes are those of `v`. */
  lemma LoadedIs(b: seq<Byte>, at: nat, width: nat, v: nat)
    requires at + width <= |b| && v < Power256(width)
    ensures At(b, at, width) == v <==> WordAt(b, at, width, v)
  {
    WordAtIsSlice(b, at, width, v);
    WordOfValue(b[at..at + width]);
    WordRoundTrip(v, width);
  }

  lemma Widths()
    ensures Power256(4) == U32 && Power256(8) == U64
  {
    assert Power256(2) == 65536;
    assert Power256(4) == U32;
    assert Power256(6) == U32 * 65536;
  }

  /** The word of `width` bytes at position `at`. */
  function At(b: seq<Byte>, at: nat, width: nat): nat
    requires at + width <= |b|
  {
    Value(b[at..at + width])
  }

  // ----- Encoding -------------------------------------------------------------------

  function Flag(result: bool): Byte
  {
    if result then 1 else 0
  }

  /** The bytes after the UID. */
  function Body(m: Message): seq<Byte>
  {
    match m
    case ReadSend(_, offset, length) => Word(offset, 8) + Word(length, 8)
    case WriteSend(_, offset, length, data) => Word(offset, 8) + Word(length, 8) + data
    case ReadReceive(_, result, length, data) => [Flag(result)] + Word(length, 8) + data
    case WriteReceive(_, result) => [Flag(result)]
  }

  function ThreeWords(size: nat, kind: nat, uid: nat): (r: seq<Byte>)
    ensures |r| == 16
  {
    Word(size, 4) + Word(kind, 4) + Word(uid, 8)
  }

  /** Size, type and UID. */
  function Head(m: Message): (r: seq<Byte>)
    ensures |r| == 16
  {
    ThreeWords(Size(m) % U32, Kind(m), m.uid)
  }

  /** `ToBuffer`: the header, then the body. */
  function Encode(m: Message): seq<Byte>
  {
    Head(m) + Body(m)
  }

  lemma EncodeSize(m: Message)
    requires WellFormed(m)
    ensures |Encode(m)| == Size(m) && |Body(m)| == Size(m) - 16
  {
  }

  lemma EncodeLayout(m: Message)
    requires WellFormed(m)
    ensures |Encode(m)| == Size(m)
    ensures At(Encode(m), 0, 4) == Size(m) % U32
    ensures At(Encode(m), 4, 4) == Kind(m)
    ensures At(Encode(m), 8, 8) == m.uid
    ensures Encode(m)[16..] == Body(m)
  {
    var b := Encode(m);
    assert b[0..4] == Word(Size(m) % U32, 4);
    assert b[4..8] == Word(Kind(m), 4);
    assert b[8..16] == Word(m.uid, 8);
    Word4(Size(m) % U32);
    Word4(Kind(m));
    Word8(m.uid);
  }

  /** The bytes of a message: size, type and UID as words, then for requests the offset at 16,
      the length at 24 and the data of a write from 32 on; for answers the result at 16, 1 or
      0, and for a read the length at 17 and the data from 25 on. */
  ghost predicate OnWire(m: Message, b: seq<Byte>)
  {
    && WordAt(b, 0, 4, |b|) && WordAt(b, 8, 8, m.uid)
    && match m
       case ReadSend(_, offset, length) =>
         |b| == 32 && WordAt(b, 4, 4, 0) && WordAt(b, 16, 8, offset) && WordAt(b, 24, 8, length)
       case WriteSend(_, offset, length, data) =>
         && |b| == 32 + |data| && WordAt(b, 4, 4, 1) && WordAt(b, 16, 8, offset) && WordAt(b, 24, 8, length)
         && b[32..] == data
       case ReadReceive(_, result, length, data) =>
         && |b| == 25 + |data| && WordAt(b, 4, 4, 2) && b[16] == (if result then 1 else 0)
         && WordAt(b, 17, 8, length) && b[25..] == data
       case WriteReceive(_, result) =>
         |b| == 17 && WordAt(b, 4, 4, 3) && b[16] == (if result then 1 else 0)
  }

  lemma ConcatIs(b: seq<Byte>, head: seq<Byte>, tail: seq<Byte>)
    requires |b| == |head| + |tail|
    ensures b == head + tail <==> b[..|head|] == head && b[|head|..] == tail
  {
    assert b == b[..|head|] + b[|head|..];
    if b == head + tail {
      assert b[..|head|] == head && b[|head|..] == tail;
    }
  }

  lemma HeadOnWire(b: seq<Byte>, size: nat, kind: nat, uid: nat)
    requires |b| >= 16
    ensures b[..16] == ThreeWords(size, kind, uid)
       <==> WordAt(b, 0, 4, size) && WordAt(b, 4, 4, kind) && WordAt(b, 8, 8, uid)
  {
    WordAtIsSlice(b, 0, 4, size);
    WordAtIsSlice(b, 4, 4, kind);
    WordAtIsSlice(b, 8, 8, uid);
    ConcatIs(b[..16], Word(size, 4) + Word(kind, 4), Word(uid, 8));
    ConcatIs(b[..8], Word(size, 4), Word(kind, 4));
    assert b[..16][..8] == b[..8] && b[..16][8..] == b[8..16] && b[..8][..4] == b[0..4] && b[..8][4..] == b[4..8];
  }

  lemma RangeOnWire(b: seq<Byte>, offset: nat, length: nat, data: seq<Byte>)
    requires |b| == 32 + |data|
    ensures b[16..] == Word(offset, 8) + Word(length, 8) + data
       <==> WordAt(b, 16, 8, offset) && WordAt(b, 24, 8, length) && b[32..] == data
  {
    WordAtIsSlice(b, 16, 8, offset);
    WordAtIsSlice(b, 24, 8, length);
    ConcatIs(b[16..], Word(offset, 8) + Word(length, 8), data);
    ConcatIs(b[16..32], Word(offset, 8), Word(length, 8));
    assert b[16..][..16] == b[16..32] && b[16..][16..] == b[32..];
    assert b[16..32][..8] == b[16..24] && b[16..32][8..] == b[24..32];
  }

  lemma AnswerOnWire(b: seq<Byte>, flag: Byte, length: nat, data: seq<Byte>)
    requires |b| == 25 + |data|
    ensures b[16..] == [flag] + Word(length, 8) + data <==> b[16] == flag && WordAt(b, 17, 8, length) && b[25..] == data
  {
    WordAtIsSlice(b, 17, 8, length);
    ConcatIs(b[16..], [flag] + Word(length, 8), data);
    ConcatIs(b[16..25], [flag], Word(length, 8));
    assert b[16..][..9] == b[16..25] && b[16..][9..] == b[25..];
    assert b[16..25][..1] == [b[16]] && b[16..25][1..] == b[17..25];
  }

  /** The same of the part after the header. */
  lemma BodyOnWire(m: Message, b: seq<Byte>)
    requires WellFormed(m) && |b| == Size(m)
    ensures b[16..] == Body(m) <==> match m
      case ReadSend(_, offset, length) => WordAt(b, 16, 8, offset) && WordAt(b, 24, 8, length)
      case WriteSend(_, offset, length, data) =>
        WordAt(b, 16, 8, offset) && WordAt(b, 24, 8, length) && b[32..] == data
      case ReadReceive(_, result, length, data) =>
        b[16] == (if result then 1 else 0) && WordAt(b, 17, 8, length) && b[25..] == data
      case WriteReceive(_, result) => b[16] == (if result then 1 else 0)
  {
    match m
    case ReadSend(_, offset, length) =>
      RangeOnWire(b, offset, length, []);
      assert Body(m) + [] == Body(m);
    case WriteSend(_, offset, length, data) =>
      RangeOnWire(b, offset, length, data);
    case ReadReceive(_, result, length, data) =>
      AnswerOnWire(b, Flag(result), length, data);
    case WriteReceive(_, result) =>
      assert b[16..] == [b[16]];
  }

  lemma HeadIs(m: Message, b: seq<Byte>)
    requires Size(m) < U32 && |b| >= 16
    ensures b[..16] == Head(m)
       <==> WordAt(b, 0, 4, Size(m)) && WordAt(b, 4, 4, Kind(m)) && WordAt(b, 8, 8, m.uid)
  {
    HeadOnWire(b, Size(m), Kind(m), m.uid);
  }

  lemma EncodingIs(m: Message, b: seq<Byte>)
    requires WellFormed(m) && Size(m) < U32
    ensures b == Encode(m) <==>
      && |b| == Size(m) && WordAt(b, 0, 4, |b|) && WordAt(b, 4, 4, Kind(m)) && WordAt(b, 8, 8, m.uid)
      && b[16..] == Body(m)
  {
    EncodeSize(m);
    if |b| == Size(m) {
      HeadIs(m, b);
      ConcatIs(b, Head(m), Body(m));
    }
  }

  /** The encoding is these bytes and no others. */
  lemma OnWireExactly(m: Message, b: seq<Byte>)
    requires WellFormed(m) && Size(m) < U32
    ensures OnWire(m, b) <==> b == Encode(m)
  {
    EncodingIs(m, b);
    if |b| == Size(m) {
      BodyOnWire(m, b);
    }
  }

  // ----- Decoding -------------------------------------------------------------------

  /** Dispatch on the type and run `FromBuffer` from byte 8 on. Yields the message
      and the position where reading stopped; `None` when the type is not a message
      type or the fields do not lie inside `b`. */
  function Decode(b: seq<Byte>): Option<(Message, nat)>
    requires |b| >= 8
  {
    if |b| < 16 then None else
    var kind, uid := At(b, 4, 4), At(b, 8, 8);
    if kind == 0 then
      if |b| < 32 then None else Some((ReadSend(uid, At(b, 16, 8), At(b, 24, 8)), 32))
    else if kind == 1 then
      if |b| < 32 then None else
      var length := At(b, 24, 8);
      if |b| < 33 + length then None
      else Some((WriteSend(uid, At(b, 16, 8), length, b[32..33 + length]), 33 + length))
    else if kind == 2 then
      if |b| < 25 then None else
      var length := At(b, 17, 8);
      if |b| < 25 + length then None
      else Some((ReadReceive(uid, b[16] != 0, length, b[25..25 + length]), 25 + length))
    else if kind == 3 then
      if |b| < 17 then None else Some((WriteReceive(uid, b[16] != 0), 17))
    else None
  }

  /** A word inside the body of an encoded message. */
  lemma BodyWord(m: Message, at: nat, width: nat)
    requires WellFormed(m) && at + width <= |Body(m)|
    ensures |Encode(m)| == 16 + |Body(m)|
    ensures At(Encode(m), 16 + at, width) == At(Body(m), at, width)
  {
    EncodeLayout(m);
    var b := Encode(m);
    assert b[16..][at..at + width] == b[16 + at..16 + at + width];
  }

  lemma BodyTail(m: Message, at: nat)
    requires WellFormed(m) && at <= |Body(m)|
    ensures |Encode(m)| == 16 + |Body(m)|
    ensures Encode(m)[16 + at..] == Body(m)[at..]
  {
    EncodeLayout(m);
    var b := Encode(m);
    assert b[16..][at..] == b[16 + at..];
  }

  /** Decoding an encoded message consumes all of it and restores every field. */
  lemma RoundTrip(m: Message)
    requires WellFormed(m)
    ensures |Encode(m)| == Size(m)
    ensures Decode(Encode(m)) == Some((m, Size(m)))
  {
    EncodeLayout(m);
    match m
    case ReadSend(_, _, _) => ReadSendRoundTrip(m);
    case WriteSend(_, _, _, _) => WriteSendRoundTrip(m);
    case ReadReceive(_, _, _, _) => ReadReceiveRoundTrip(m);
    case WriteReceive(_, _) => BodyTail(m, 0); assert Encode(m)[16] == Body(m)[0];
  }

  lemma ReadSendRoundTrip(m: Message)
    requires m.ReadSend? && WellFormed(m)
    ensures Decode(Encode(m)) == Some((m, Size(m)))
  {
    EncodeLayout(m);
    BodyWord(m, 0, 8);
    BodyWord(m, 8, 8);
    assert Body(m)[0..8] == Word(m.offset, 8) && Body(m)[8..16] == Word(m.length, 8);
    Word8(m.offset);
    Word8(m.length);
  }

  lemma WriteSendRoundTrip(m: Message)
    requires m.WriteSend? && WellFormed(m)
    ensures Decode(Encode(m)) == Some((m, Size(m)))
  {
    EncodeLayout(m);
    BodyWord(m, 0, 8);
    BodyWord(m, 8, 8);
    BodyTail(m, 16);
    assert Body(m)[0..8] == Word(m.offset, 8) && Body(m)[8..16] == Word(m.length, 8);
    assert Body(m)[16..] == m.data;
    assert Encode(m)[32..33 + m.length] == Encode(m)[32..];
    Word8(m.offset);
    Word8(m.length);
  }

  lemma ReadReceiveFields(m: Message)
    requires m.ReadReceive? && WellFormed(m)
    ensures |Encode(m)| == 25 + m.length
    ensures At(Encode(m), 17, 8) == m.length
    ensures Encode(m)[16] == Flag(m.result)
    ensures Encode(m)[25..25 + m.length] == m.data
  {
    BodyWord(m, 1, 8);
    BodyTail(m, 0);
    BodyTail(m, 9);
    assert Body(m)[1..9] == Word(m.length, 8);
    assert Body(m)[9..] == m.data;
    assert Encode(m)[16] == Body(m)[0];
    assert Encode(m)[25..25 + m.length] == Encode(m)[25..];
    Word8(m.length);
  }

  lemma ReadReceiveRoundTrip(m: Message)
    requires m.ReadReceive? && WellFormed(m)
    ensures Decode(Encode(m)) == Some((m, Size(m)))
  {
    EncodeLayout(m);
    ReadReceiveFields(m);
  }

  // ----- The receive guard ------------------------------------------------------------

  /** What `ReceiveFrom(buffer, BUFSIZ - 1)` keeps of a datagram. */
  function Truncate(datagram: seq<Byte>): seq<Byte>
  {
    if |datagram| <= BUFSIZ - 1 then datagram else datagram[..BUFSIZ - 1]
  }

  /** The two size checks, then decoding. */
  function Receive(packet: seq<Byte>): Option<Message>
  {
    if |packet| < 8 then None
    else if At(packet, 0, 4) > |packet| then None
    else match Decode(packet)
         case None => None
         case Some((m, _)) => Some(m)
  }

  /** The packet is long enough for its size field and the fields of `m`, and has these where
      the receivers look; any byte but 0 in the place of a result means success. */
  ghost predicate Parses(packet: seq<Byte>, m: Message)
  {
    && |packet| >= 16 && At(packet, 0, 4) <= |packet| && m.uid < U64 && WordAt(packet, 8, 8, m.uid)
    && match m
       case ReadSend(_, offset, length) =>
         && |packet| >= 32 && WordAt(packet, 4, 4, 0)
         && offset < U64 && WordAt(packet, 16, 8, offset) && length < U64 && WordAt(packet, 24, 8, length)
       case WriteSend(_, offset, length, data) =>
         && |packet| >= 33 + length && WordAt(packet, 4, 4, 1)
         && offset < U64 && WordAt(packet, 16, 8, offset) && length < U64 && WordAt(packet, 24, 8, length)
         && data == packet[32..33 + length]
       case ReadReceive(_, result, length, data) =>
         && |packet| >= 25 + length && WordAt(packet, 4, 4, 2) && (result <==> packet[16] != 0)
         && length < U64 && WordAt(packet, 17, 8, length) && data == packet[25..25 + length]
       case WriteReceive(_, result) =>
         |packet| >= 17 && WordAt(packet, 4, 4, 3) && (result <==> packet[16] != 0)
  }

  lemma LoadedWord(b: seq<Byte>, at: nat, width: nat)
    requires at + width <= |b|
    ensures At(b, at, width) < Power256(width) && WordAt(b, at, width, At(b, at, width))
  {
    WordOfValue(b[at..at + width]);
    LoadedIs(b, at, width, At(b, at, width));
  }

  lemma HeaderLoads(packet: seq<Byte>, kind: nat, uid: nat)
    requires |packet| >= 16 && kind < 4 && uid < U64
    ensures At(packet, 4, 4) == kind <==> WordAt(packet, 4, 4, kind)
    ensures At(packet, 8, 8) == uid <==> WordAt(packet, 8, 8, uid)
  {
    Widths();
    LoadedIs(packet, 4, 4, kind);
    LoadedIs(packet, 8, 8, uid);
  }

  lemma RangeLoads(packet: seq<Byte>, at: nat, v: nat)
    requires at + 8 <= |packet| && v < U64
    ensures At(packet, at, 8) == v <==> WordAt(packet, at, 8, v)
  {
    Widths();
    LoadedIs(packet, at, 8, v);
  }

  lemma ReceivedParses(packet: seq<Byte>)
    requires Receive(packet).Some?
    ensures Parses(packet, Receive(packet).value)
  {
    Widths();
    LoadedWord(packet, 4, 4);
    LoadedWord(packet, 8, 8);
    match Receive(packet).value
    case ReadSend(_, _, _) => LoadedWord(packet, 16, 8); LoadedWord(packet, 24, 8);
    case WriteSend(_, _, _, _) => LoadedWord(packet, 16, 8); LoadedWord(packet, 24, 8);
    case ReadReceive(_, _, _, _) => LoadedWord(packet, 17, 8);
    case WriteReceive(_, _) =>
  }

  lemma ParsedIsReceived(packet: seq<Byte>, m: Message)
    requires Parses(packet, m)
    ensures Receive(packet) == Some(m)
  {
    HeaderLoads(packet, Kind(m), m.uid);
    match m
    case ReadSend(_, offset, length) => RangeLoads(packet, 16, offset); RangeLoads(packet, 24, length);
    case WriteSend(_, offset, length, _) => RangeLoads(packet, 16, offset); RangeLoads(packet, 24, length);
    case ReadReceive(_, _, length, _) => RangeLoads(packet, 17, length);
    case WriteReceive(_, _) =>
  }

  /** What a receiver makes of any packet, well-formed or not. */
  lemma ReceiveExactly(packet: seq<Byte>, m: Message)
    ensures Receive(packet) == Some(m) <==> Parses(packet, m)
  {
    if Receive(packet) == Some(m) {
      ReceivedParses(packet);
    }
    if Parses(packet, m) {
      ParsedIsReceived(packet, m);
    }
  }

  /** What the peer makes of a datagram carrying `bytes`. */
  function Deliver(datagram: seq<Byte>): Option<Message>
  {
    Receive(Truncate(datagram))
  }

  /** The size in the header gives a cut message away. */
  lemma CutIsRejected(m: Message, cut: nat)
    requires WellFormed(m) && Size(m) < U32 && cut < |Encode(m)|
    ensures Receive(Encode(m)[..cut]) == None
  {
    EncodeLayout(m);
    if cut >= 8 {
      assert Encode(m)[..cut][0..4] == Encode(m)[0..4];
      assert At(Encode(m)[..cut], 0, 4) == Size(m);
    }
  }

  lemma WholeIsAccepted(m: Message)
    requires WellFormed(m) && Size(m) < U32
    ensures Receive(Encode(m)) == Some(m)
  {
    RoundTrip(m);
    EncodeLayout(m);
  }

  /** However an encoded message is cut, it is accepted exactly when nothing was
      cut off, and what is accepted is the original. */
  lemma TruncationGuard(m: Message, cut: nat)
    requires WellFormed(m) && Size(m) < U32 && cut <= |Encode(m)|
    ensures Receive(Encode(m)[..cut]) == if cut == |Encode(m)| then Some(m) else None
  {
    if cut == |Encode(m)| {
      assert Encode(m)[..cut] == Encode(m);
      WholeIsAccepted(m);
    } else {
      CutIsRejected(m, cut);
    }
  }

  /** A message arrives exactly when it fits the receive buffer less one byte. */
  lemma DeliveredIffFits(m: Message)
    requires WellFormed(m) && Size(m) < U32
    ensures Deliver(Encode(m)) == if Size(m) <= BUFSIZ - 1 then Some(m) else None
  {
    RoundTrip(m);
    var b := Encode(m);
    assert b[..|b|] == b;
    TruncationGuard(m, if |b| <= BUFSIZ - 1 then |b| else BUFSIZ - 1);
  }

  /** The largest payloads that arrive: 8158 bytes to a minion, 8166 from one. */
  lemma PayloadLimits(m: Message)
    requires WellFormed(m) && Size(m) < U32
    ensures m.WriteSend? ==> (Deliver(Encode(m)) == Some(m) <==> m.length <= 8158)
    ensures m.ReadReceive? ==> (Deliver(Encode(m)) == Some(m) <==> m.length <= 8166)
    ensures m.ReadSend? || m.WriteReceive? ==> Deliver(Encode(m)) == Some(m)
  {
    DeliveredIffFits(m);
  }

  // ----- The buffer walks of the source --------------------------------------------------

  /** `*(T*)at = v`: append a word of `width` bytes to what the walk has written. */
  method StoreWord(buffer: array<Byte>, at: nat, v: nat, width: nat) returns (end: nat)
    requires at + width <= buffer.Length
    modifies buffer
    ensures end == at + width
    ensures buffer[..end] == old(buffer[..at]) + Word(v, width)
  {
    var rest := v;
    end := at;
    while end < at + width
      invariant at <= end <= at + width
      invariant buffer[..end] + Word(rest, at + width - end) == old(buffer[..at]) + Word(v, width)
    {
      ghost var done, left := buffer[..end], at + width - end;
      buffer[end] := rest % 256;
      assert buffer[..end + 1] == done + [rest % 256];
      assert Word(rest, left) == [rest % 256] + Word(rest / 256, left - 1);
      rest := rest / 256;
      end := end + 1;
    }
  }

  /** `std::copy` of a payload. */
  method StoreBytes(buffer: array<Byte>, at: nat, data: seq<Byte>) returns (end: nat)
    requires at + |data| <= buffer.Length
    modifies buffer
    ensures end == at + |data|
    ensures buffer[..end] == old(buffer[..at]) + data
  {
    end := at;
    while end < at + |data|
      invariant at <= end <= at + |data|
      invariant buffer[..end] == old(buffer[..at]) + data[..end - at]
    {
      ghost var done := buffer[..end];
      buffer[end] := data[end - at];
      assert buffer[..end + 1] == done + [data[end - at]];
      end := end + 1;
    }
  }

  lemma Regroup(a: seq<Byte>, b: seq<Byte>, c: seq<Byte>)
    ensures (a + b) + c == a + (b + c)
  {
  }

  /** The offset and length that both requests store. */
  method StoreRange(buffer: array<Byte>, at: nat, offset: nat, length: nat) returns (end: nat)
    requires at + 16 <= buffer.Length
    modifies buffer
    ensures end == at + 16
    ensures buffer[..end] == old(buffer[..at]) + (Word(offset, 8) + Word(length, 8))
  {
    ghost var head := buffer[..at];
    end := StoreWord(buffer, at, offset, 8);
    end := StoreWord(buffer, end, length, 8);
    Regroup(head, Word(offset, 8), Word(length, 8));
  }

  /** The result flag, length and payload of a read answer. */
  method StoreAnswer(buffer: array<Byte>, at: nat, result: bool, length: nat, data: seq<Byte>)
    returns (end: nat)
    requires at + 9 + |data| <= buffer.Length
    modifies buffer
    ensures end == at + 9 + |data|
    ensures buffer[..end] == old(buffer[..at]) + ([Flag(result)] + Word(length, 8) + data)
  {
    ghost var head := buffer[..at];
    end := StoreBytes(buffer, at, [Flag(result)]);
    end := StoreWord(buffer, end, length, 8);
    Regroup(head, [Flag(result)], Word(length, 8));
    end := StoreBytes(buffer, end, data);
    Regroup(head, [Flag(result)] + Word(length, 8), data);
  }

  /** The part of `ToBuffer` after the header. */
  method StoreBody(m: Message, buffer: array<Byte>, at: nat) returns (end: nat)
    requires WellFormed(m) && at + |Body(m)| <= buffer.Length
    modifies buffer
    ensures end == at + |Body(m)|
    ensures buffer[..end] == old(buffer[..at]) + Body(m)
  {
    match m {
      case ReadSend(_, offset, length) =>
        end := StoreRange(buffer, at, offset, length);
      case WriteSend(_, offset, length, data) =>
        ghost var head := buffer[..at];
        end := StoreRange(buffer, at, offset, length);
        end := StoreBytes(buffer, end, data);
        Regroup(head, Word(offset, 8) + Word(length, 8), data);
      case ReadReceive(_, result, length, data) =>
        end := StoreAnswer(buffer, at, result, length, data);
      case WriteReceive(_, result) =>
        end := StoreBytes(buffer, at, [Flag(result)]);
    }
  }

  /** The header that every class stores first. */
  method StoreHead(size: nat, kind: nat, uid: nat, buffer: array<Byte>) returns (end: nat)
    requires buffer.Length >= 16
    modifies buffer
    ensures end == 16 && buffer[..16] == ThreeWords(size, kind, uid)
  {
    end := StoreWord(buffer, 0, size, 4);
    assert buffer[..end] == Word(size, 4);
    end := StoreWord(buffer, end, kind, 4);
    end := StoreWord(buffer, end, uid, 8);
  }

  /** The walk over a buffer of `GetSize()` bytes. */
  method StoreAll(m: Message, buffer: array<Byte>)
    requires WellFormed(m) && buffer.Length == Size(m) < U32
    modifies buffer
    ensures buffer[..] == Encode(m)
  {
    EncodeSize(m);
    var runner := StoreHead(Size(m), Kind(m), m.uid, buffer);
    ghost var head := buffer[..16];
    assert head == Head(m);
    runner := StoreBody(m, buffer, runner);
    assert buffer[..runner] == head + Body(m);
    assert buffer[..runner] == buffer[..];
  }

  /** `ToBuffer` of every message class: the walk over a fresh buffer leaves exactly the
      encoding in it, every field at its byte. */
  method ToBuffer(m: Message) returns (buffer: array<Byte>)
    requires WellFormed(m) && Size(m) < U32
    ensures fresh(buffer) && buffer[..] == Encode(m)
    ensures OnWire(m, buffer[..])
  {
    buffer := new Byte[Size(m)];
    StoreAll(m, buffer);
    OnWireExactly(m, buffer[..]);
  }

  /** `*(T*)at`: load a word of `width` bytes. */
  method LoadWord(buffer: array<Byte>, at: nat, width: nat) returns (v: nat)
    requires at + width <= buffer.Length
    ensures v == At(buffer[..], at, width)
  {
    v := 0;
    var i := at + width;
    while i > at
      invariant at <= i <= at + width
      invariant v == Value(buffer[i..at + width])
    {
      i := i - 1;
      v := buffer[i] + 256 * v;
      assert buffer[i..at + width][1..] == buffer[i + 1..at + width];
    }
    assert buffer[at..at + width] == buffer[..][at..at + width];
  }

  /** The receive path of a proxy: check the sizes, then walk the `bytes` received
      bytes field by field. */
  method FromBuffer(buffer: array<Byte>) returns (m: Option<Message>)
    ensures m == Receive(buffer[..])
    ensures forall message :: m == Some(message) <==> Parses(buffer[..], message)
  {
    forall message
      ensures Receive(buffer[..]) == Some(message) <==> Parses(buffer[..], message)
    {
      ReceiveExactly(buffer[..], message);
    }
    if buffer.Length < 8 {
      return None;
    }
    var size := LoadWord(buffer, 0, 4);
    if size > buffer.Length || buffer.Length < 16 {
      return None;
    }
    var kind := LoadWord(buffer, 4, 4);
    var uid := LoadWord(buffer, 8, 8);
    if kind <= 1 && buffer.Length >= 32 {
      var offset := LoadWord(buffer, 16, 8);
      var length := LoadWord(buffer, 24, 8);
      if kind == 0 {
        return Some(ReadSend(uid, offset, length));
      } else if 33 + length <= buffer.Length {
        return Some(WriteSend(uid, offset, length, buffer[32..33 + length]));
      }
    } else if kind == 2 && buffer.Length >= 25 {
      var length := LoadWord(buffer, 17, 8);
      if 25 + length <= buffer.Length {
        return Some(ReadReceive(uid, buffer[16] != 0, length, buffer[25..25 + length]));
      }
    } else if kind == 3 && buffer.Length >= 17 {
      return Some(WriteReceive(uid, buffer[16] != 0));
    }
    return None;
  }
}
