/** rsyncwire/wire.go: messages with a tag and a length in front, and when a stream survives them. */
module Multiplex {
  import opened Bytes
  import opened Wire

  const MSG_DATA: byte := 0
  const MSG_ERROR: byte := 1
  const MPLEX_BASE := 7

  const TWO_TO_THE_24 := 0x100_0000

  datatype Message = Message(tag: byte, payload: bytes)

  function OrByte(a: byte, b: byte): byte { ((a as bv8) | (b as bv8)) as int }

  lemma OrByteZero(a: byte)
    ensures OrByte(a, 0) == a
  {
    assert (a as bv8) | 0 == a as bv8;
  }

  /** uint32(mplexBase+tag)<<24 | uint32(n): a length of 24 bits or more runs into the tag. */
  function Header(tag: byte, n: nat): uint32 {
    TWO_TO_THE_24 * OrByte((MPLEX_BASE + tag) % 256, n % TWO_TO_THE_32 / TWO_TO_THE_24) + n % TWO_TO_THE_24
  }

  function Encode(m: Message): bytes { Le32(Header(m.tag, |m.payload|)) + m.payload }

  /** ReadMsg. */
  function Parse(inp: bytes): (r: Result<(Message, bytes)>)
    ensures r.Ok? ==> |r.value.1| == |inp| - 4 - |r.value.0.payload| && |r.value.0.payload| <= MAX_MESSAGE_SIZE
  {
    var (word, rest) :- ParseInt32(inp);
    var header := ToUint32(word);
    var length := header % TWO_TO_THE_24;
    if length > MAX_MESSAGE_SIZE then Err(MessageTooLong)
    else
      var (p, tail) :- ParseBytes(rest, length);
      Ok((Message((header / TWO_TO_THE_24 - MPLEX_BASE) % 256, p), tail))
  }

  lemma HeaderParts(tag: byte, n: nat)
    ensures Header(tag, n) % TWO_TO_THE_24 == n % TWO_TO_THE_24
    ensures n < TWO_TO_THE_24 ==> (Header(tag, n) / TWO_TO_THE_24 - MPLEX_BASE) % 256 == tag
  {
    if n < TWO_TO_THE_24 {
      OrByteZero((MPLEX_BASE + tag) % 256);
      assert n % TWO_TO_THE_32 / TWO_TO_THE_24 == 0;
    }
  }

  lemma HeaderRead(h: uint32, rest: bytes)
    ensures var r := ParseInt32(Le32(h) + rest); r.Ok? && ToUint32(r.value.0) == h && r.value.1 == rest
  {
    WordParsed(h, rest);
    ToUint32OfInt32(h);
  }

  /** The first bytes of a message: its length, lowest byte first, and its tag from 7 on. */
  lemma HeaderBytes(tag: byte, payload: bytes)
    ensures var n := |payload|;
      n < 0x100_0000 ==>
        Encode(Message(tag, payload)) == [n % 256, n / 0x100 % 256, n / 0x1_0000, (7 + tag) % 256] + payload
  {
    var n := |payload|;
    if n < 0x100_0000 {
      OrByteZero((MPLEX_BASE + tag) % 256);
      WordBytes(Header(tag, n));
      TopByte((7 + tag) % 256, n);
    }
  }

  lemma TopByte(high: byte, n: nat)
    requires n < 0x100_0000
    ensures var w := 0x100_0000 * high + n;
      && w % 0x100 == n % 0x100 && w / 0x100 % 0x100 == n / 0x100 % 0x100
      && w / 0x1_0000 % 0x100 == n / 0x1_0000 && w / 0x100_0000 == high
  {
    var w := 0x100_0000 * high + n;
    assert w / 0x100 == 0x1_0000 * high + n / 0x100;
    assert w / 0x1_0000 == 0x100 * high + n / 0x1_0000;
  }

  /** What ReadMsg makes of a message of any size. */
  lemma ParseEncoded(m: Message, rest: bytes)
    ensures var r := Parse(Encode(m) + rest);
      if |m.payload| <= MAX_MESSAGE_SIZE then r == Ok((m, rest)) else r.Ok? ==> r.value.0 != m
  {
    var h, p := Header(m.tag, |m.payload|), m.payload;
    HeaderParts(m.tag, |p|);
    Assoc(Le32(h), p, rest);
    HeaderRead(h, p + rest);
    if |p| <= MAX_MESSAGE_SIZE {
      assert |p| % TWO_TO_THE_24 == |p|;
      ParseBytesRoundTrip(p, rest);
    }
  }

  /** A message is read back, with the stream behind it intact, exactly when it is within the limit. */
  lemma MessageRoundTrip(m: Message, rest: bytes)
    ensures Parse(Encode(m) + rest) == Ok((m, rest)) <==> |m.payload| <= 0x4_0000
  {
    ParseEncoded(m, rest);
  }

  /** A message over the limit, but of less than 2^24 bytes, is refused. */
  lemma LongMessage(m: Message, rest: bytes)
    ensures MAX_MESSAGE_SIZE < |m.payload| < TWO_TO_THE_24 ==> Parse(Encode(m) + rest) == Err(MessageTooLong)
  {
    var h := Header(m.tag, |m.payload|);
    HeaderParts(m.tag, |m.payload|);
    Assoc(Le32(h), m.payload, rest);
    HeaderRead(h, m.payload + rest);
  }

  function EncodeAll(ms: seq<Message>): bytes { if ms == [] then [] else Encode(ms[0]) + EncodeAll(ms[1..]) }

  /** ReadMsg until the stream ends between two messages. */
  function ParseAll(inp: bytes): Result<seq<Message>>
    decreases |inp|
  {
    if inp == [] then Ok([])
    else
      var (m, rest) :- Parse(inp);
      var ms :- ParseAll(rest);
      Ok([m] + ms)
  }

  predicate Short(ms: seq<Message>) { forall k | 0 <= k < |ms| :: |ms[k].payload| <= MAX_MESSAGE_SIZE }

  /** A sequence of messages is read back exactly when every one is within the limit. */
  lemma {:induction false} MessagesRoundTrip(ms: seq<Message>)
    ensures ParseAll(EncodeAll(ms)) == Ok(ms) <==> Short(ms)
  {
    if ms != [] {
      assert ms == [ms[0]] + ms[1..];
      ParseEncoded(ms[0], EncodeAll(ms[1..]));
      MessagesRoundTrip(ms[1..]);
    }
  }

  // ---------- Reading data only ----------

  /** MultiplexReader.Read into a buffer of `room` bytes. */
  function ParseData(inp: bytes, room: nat): Result<(bytes, bytes)> {
    var (m, rest) :- Parse(inp);
    if m.tag == MSG_ERROR then Err(RemoteError)
    else if m.tag != MSG_DATA then Err(UnexpectedTag)
    else if room < |m.payload| then Err(Panic)
    else Ok((m.payload, rest))
  }

  /** Tag 0 carries data, tag 1 an error of the peer; nothing else is expected. */
  lemma TagsRead(tag: byte, payload: bytes, rest: bytes, room: nat)
    requires |payload| <= MAX_MESSAGE_SIZE && |payload| <= room
    ensures ParseData(Encode(Message(tag, payload)) + rest, room)
         == if tag == 0 then Ok((payload, rest)) else if tag == 1 then Err(RemoteError) else Err(UnexpectedTag)
  {
    ParseEncoded(Message(tag, payload), rest);
  }

  /** Read until the stream ends between two messages. */
  function ReadStream(inp: bytes, room: nat): (r: Result<bytes>)
    decreases |inp|
  {
    if inp == [] then Ok([])
    else
      var (p, rest) :- ParseData(inp, room);
      var tail :- ReadStream(rest, room);
      Ok(p + tail)
  }

  /** The stream a MultiplexWriter produces from `writes`, one message for each. */
  function Framed(writes: seq<bytes>): bytes {
    if writes == [] then [] else Encode(Message(MSG_DATA, writes[0])) + Framed(writes[1..])
  }

  /** However a stream is cut into writes, the bytes come out as they went in, if every write is within
      the limit and fits the reader's buffer. */
  lemma {:induction false} StreamSurvives(writes: seq<bytes>, room: nat)
    requires forall k | 0 <= k < |writes| :: |writes[k]| <= MAX_MESSAGE_SIZE && |writes[k]| <= room
    ensures ReadStream(Framed(writes), room) == Ok(Concat(writes))
  {
    if writes != [] {
      ParseEncoded(Message(MSG_DATA, writes[0]), Framed(writes[1..]));
      StreamSurvives(writes[1..], room);
    }
  }

  /** What was written on a connection in writes that fit messages is what a reader of the messages gets. */
  lemma ConnSurvives(c: Conn, room: nat)
    requires c.Framable() && room >= MAX_MESSAGE_SIZE
    ensures ReadStream(Framed(c.writes), room) == Ok(c.wr)
  {
    StreamSurvives(c.writes, room);
  }

  /** A reader whose buffer holds a largest message never panics, whatever arrives. */
  lemma {:induction false} LargeBufferNeverPanics(inp: bytes, room: nat)
    requires room >= MAX_MESSAGE_SIZE
    ensures ReadStream(inp, room) != Err(Panic)
    decreases |inp|
  {
    if inp != [] && ParseData(inp, room).Ok? {
      LargeBufferNeverPanics(ParseData(inp, room).value.1, room);
    }
  }

  /** rsyncwire.MultiplexWriter on the connection `writer`. */
  class MultiplexWriter {
    const writer: Conn

    constructor (writer: Conn)
      ensures this.writer == writer
    {
      this.writer := writer;
    }

    method WriteMsg(tag: byte, p: bytes)
      modifies writer`wr, writer`writes
      ensures writer.wr == old(writer.wr) + Encode(Message(tag, p))
    {
      var header := Header(tag, |p|);
      Le32OfInt32(header);
      writer.WriteInt32(ToInt32(header));
      writer.Write(p);
      Assoc(old(writer.wr), Le32(header), p);
    }

    method Write(p: bytes)
      modifies writer`wr, writer`writes
      ensures writer.wr == old(writer.wr) + Encode(Message(MSG_DATA, p))
    {
      WriteMsg(MSG_DATA, p);
    }
  }

  /** rsyncwire.MultiplexReader on the connection `reader`. */
  class MultiplexReader {
    const reader: Conn

    constructor (reader: Conn)
      ensures this.reader == reader
    {
      this.reader := reader;
    }

    method ReadMsg() returns (r: Result<Message>)
      modifies reader`rd
      ensures match Parse(old(reader.rd))
              case Ok((m, rest)) => r == Ok(m) && reader.rd == rest
              case Err(e) => r == Err(e)
    {
      var word :- reader.ReadInt32();
      var header := ToUint32(word);
      var tag := (header / TWO_TO_THE_24 - MPLEX_BASE) % 256;
      var length := header % TWO_TO_THE_24;
      if length > MAX_MESSAGE_SIZE {
        return Err(MessageTooLong);
      }
      var p :- reader.ReadFull(length);
      r := Ok(Message(tag, p));
    }

    method Read(room: nat) returns (r: Result<bytes>)
      modifies reader`rd
      ensures match ParseData(old(reader.rd), room)
              case Ok((p, rest)) => r == Ok(p) && reader.rd == rest
              case Err(e) => r == Err(e)
    {
      var m :- ReadMsg();
      if m.tag == MSG_ERROR {
        return Err(RemoteError);
      }
      if m.tag != MSG_DATA {
        return Err(UnexpectedTag);
      }
      if room < |m.payload| {
        return Err(Panic);
      }
      r := Ok(m.payload);
    }
  }
}
