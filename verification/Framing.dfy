/** The packets of an infolink connection: a header of fourteen bytes and the data.  The checksum is a
    parameter. */
module Framing {
  import opened Arithmetic
  import opened ByteStrings
  import opened Sequences

  type Half = x: int | 0 <= x < 0x1_0000
  type Word = x: int | 0 <= x < 0x1_0000_0000

  const HEADER_SIZE := 14

  datatype Header = Header(kind: Half, id: Word, datalen: Word, crc: Word)

  datatype Content = Content(kind: Half, data: Str, checked: bool)

  /** The size of a packet is 32 bits wide. */
  type Message = m: Content | |m.data| + HEADER_SIZE < 0x1_0000_0000 witness Content(0, [], false)

  function HalfBytes(x: Half): (b: Str)
    ensures |b| == 2
  {
    Quotients(x);
    [x / 0x100, x % 0x100]
  }

  function BytesOfWord(x: Word): (b: Str)
    ensures |b| == 4
  {
    Quotients(x);
    [x / 0x100 / 0x100 / 0x100, x / 0x100 / 0x100 % 0x100, x / 0x100 % 0x100, x % 0x100]
  }

  lemma Quotients(x: Word)
    ensures x == 0x100 * (x / 0x100) + x % 0x100 && 0 <= x / 0x100 < 0x100_0000 && 0 <= x % 0x100 < 0x100
    ensures x < 0x1_0000 ==> x / 0x100 < 0x100
    ensures 0 <= x / 0x100 / 0x100 < 0x1_0000 && 0 <= x / 0x100 / 0x100 / 0x100 < 0x100
    ensures x / 0x100 == 0x100 * (x / 0x100 / 0x100) + x / 0x100 % 0x100
    ensures x / 0x100 / 0x100 == 0x100 * (x / 0x100 / 0x100 / 0x100) + x / 0x100 / 0x100 % 0x100
  {
  }

  function HalfAt(s: Str): Half
    requires |s| == 2
  {
    var a: int, b: int := s[0], s[1];
    0x100 * a + b
  }

  function WordAt(s: Str): Word
    requires |s| == 4
  {
    var a: int, b: int, c: int, d: int := s[0], s[1], s[2], s[3];
    0x100_0000 * a + 0x1_0000 * b + 0x100 * c + d
  }

  lemma HalfBack(x: Half)
    ensures HalfAt(HalfBytes(x)) == x
  {
  }

  lemma WordBack(x: Word)
    ensures WordAt(BytesOfWord(x)) == x
  {
    Quotients(x);
  }

  function PackHeader(h: Header): (b: Str)
    ensures |b| == HEADER_SIZE
  {
    HalfBytes(h.kind) + BytesOfWord(h.id) + BytesOfWord(h.datalen) + BytesOfWord(h.crc)
  }

  function UnpackHeader(s: Str): Header
    requires |s| >= HEADER_SIZE
  {
    Header(HalfAt(s[..2]), WordAt(s[2..6]), WordAt(s[6..10]), WordAt(s[10..14]))
  }

  lemma HeaderBack(h: Header, rest: Str)
    ensures UnpackHeader(PackHeader(h) + rest) == h
  {
    hide HalfBytes, BytesOfWord, HalfAt, WordAt;
    var s := PackHeader(h) + rest;
    PackedFields(h, rest);
    assert s[..2] == s[0..2];
    HalfBack(h.kind);
    WordBack(h.id);
    WordBack(h.datalen);
    WordBack(h.crc);
  }

  /** An empty message and one that is not to be checked go out with checksum 0; the checksum is also
      the identification. */
  function HeaderOf(crc: Str -> Word, m: Message): Header {
    var checksum := if m.checked && m.data != [] then crc(m.data) else 0;
    Header(m.kind, checksum, |m.data|, checksum)
  }

  function Frame(crc: Str -> Word, m: Message): (b: Str)
    ensures |b| == HEADER_SIZE + |m.data|
  {
    PackHeader(HeaderOf(crc, m)) + m.data
  }

  /** What a header must say of a message: its type, its length, and twice the checksum of its data, which
      is zero for a message that has none or is not to be checked. */
  ghost predicate Describes(h: Header, crc: Str -> Word, m: Message) {
    && h.kind == m.kind && h.datalen == |m.data|
    && h.id == h.crc == (if m.checked && m.data != [] then crc(m.data) else 0)
  }

  function Number(s: Str): int {
    if s == [] then 0 else 0x100 * Number(s[..|s| - 1]) + s[|s| - 1]
  }

  lemma NumberOfTwo(s: Str)
    requires |s| == 2
    ensures Number(s) == HalfAt(s)
  {
    assert s[..1][..0] == [] && Number(s[..1]) == s[0];
  }

  lemma NumberOfFour(s: Str)
    requires |s| == 4
    ensures Number(s) == WordAt(s)
  {
    NumberOfTwo(s[..2]);
    assert s[..3][..2] == s[..2];
    assert Number(s[..3]) == 0x100 * Number(s[..2]) + s[2];
  }

  /** The bytes of a packet: two for the type, and four each for the identification, the length and the
      checksum, the more significant first; then the data. */
  lemma FrameBytes(crc: Str -> Word, m: Message)
    ensures var f := Frame(crc, m);
            var checksum := if m.checked && m.data != [] then crc(m.data) else 0;
            && Number(f[0..2]) == m.kind && Number(f[2..6]) == checksum
            && Number(f[6..10]) == |m.data| && Number(f[10..14]) == checksum && f[14..] == m.data
  {
    hide Number, HalfAt, WordAt, HalfBytes, BytesOfWord, PackHeader;
    var f, h := Frame(crc, m), HeaderOf(crc, m);
    PackedFields(h, m.data);
    HalfBack(h.kind);
    WordBack(h.id);
    WordBack(h.datalen);
    WordBack(h.crc);
    NumberOfTwo(f[0..2]);
    NumberOfFour(f[2..6]);
    NumberOfFour(f[6..10]);
    NumberOfFour(f[10..14]);
  }

  lemma PackedFields(h: Header, rest: Str)
    ensures var s := PackHeader(h) + rest;
            && s[0..2] == HalfBytes(h.kind) && s[2..6] == BytesOfWord(h.id)
            && s[6..10] == BytesOfWord(h.datalen) && s[10..14] == BytesOfWord(h.crc) && s[14..] == rest
  {
    hide HalfBytes, BytesOfWord;
  }

  /** A packet as it is queued. */
  function PacketOf(crc: Str -> Word, m: Message, packed: bool, junk: Str): (b: Str)
    requires |junk| == HEADER_SIZE
    ensures |b| == HEADER_SIZE + |m.data|
  {
    if packed then Frame(crc, m) else junk + m.data
  }

  /** What a receiver makes of a stream of bytes when it cuts it where the headers say. */
  datatype Received = Received(headers: seq<Header>, data: seq<Str>, rest: Str)

  function Receive(s: Str): Received
    decreases |s|
  {
    if |s| < HEADER_SIZE then Received([], [], s) else
      var h := UnpackHeader(s);
      var end := HEADER_SIZE + h.datalen;
      if |s| < end then Received([], [], s) else
        var more := Receive(s[end..]);
        Received([h] + more.headers, [s[HEADER_SIZE..end]] + more.data, more.rest)
  }

  /** A beginning of a frame is not taken for a frame. */
  lemma PartIsKept(crc: Str -> Word, m: Message, n: nat)
    requires n < |Frame(crc, m)|
    ensures var part := Frame(crc, m)[..n]; Receive(part) == Received([], [], part)
  {
    hide PackHeader, UnpackHeader;
    if n >= HEADER_SIZE {
      var frame := Frame(crc, m);
      assert frame[..n] == PackHeader(HeaderOf(crc, m)) + frame[HEADER_SIZE..n];
      HeaderBack(HeaderOf(crc, m), frame[HEADER_SIZE..n]);
    }
  }

  /** A frame is cut off where it ends. */
  lemma ReceiveFrame(crc: Str -> Word, m: Message, after: Str)
    ensures var more := Receive(after);
            Receive(Frame(crc, m) + after)
              == Received([HeaderOf(crc, m)] + more.headers, [m.data] + more.data, more.rest)
  {
    hide PackHeader, UnpackHeader;
    var s := Frame(crc, m) + after;
    assert s == PackHeader(HeaderOf(crc, m)) + (m.data + after);
    HeaderBack(HeaderOf(crc, m), m.data + after);
    assert s[HEADER_SIZE..HEADER_SIZE + |m.data|] == m.data && s[HEADER_SIZE + |m.data|..] == after;
  }

  function Frames(crc: Str -> Word, ms: seq<Message>): (fs: seq<Str>)
    ensures |fs| == |ms| && forall i | 0 <= i < |ms| :: fs[i] == Frame(crc, ms[i])
  {
    seq(|ms|, i requires 0 <= i < |ms| => Frame(crc, ms[i]))
  }

  /** The receiver has the messages `ms`, each with the header that describes it, and has kept `rest`. */
  ghost predicate Got(r: Received, crc: Str -> Word, ms: seq<Message>, rest: Str) {
    && |r.headers| == |r.data| == |ms| && r.rest == rest
    && forall i | 0 <= i < |ms| :: Describes(r.headers[i], crc, ms[i]) && r.data[i] == ms[i].data
  }

  /** Frames put end to end, and part of one more, are cut apart where they were joined. */
  lemma {:induction false} ReceiveFrames(crc: Str -> Word, ms: seq<Message>, tail: Str)
    requires Receive(tail) == Received([], [], tail)
    ensures Got(Receive(Joined(Frames(crc, ms)) + tail), crc, ms, tail)
  {
    hide Receive, Frame, HeaderOf, Describes;
    if ms == [] {
      assert Joined(Frames(crc, ms)) + tail == tail;
    } else {
      var rest := Joined(Frames(crc, ms[1..])) + tail;
      ReceiveFrames(crc, ms[1..], tail);
      assert Frames(crc, ms)[1..] == Frames(crc, ms[1..]);
      assert Joined(Frames(crc, ms)) + tail == Frame(crc, ms[0]) + rest;
      ReceiveFrame(crc, ms[0], rest);
      HeaderDescribes(crc, ms[0]);
      assert forall i | 0 < i < |ms| :: ms[i] == ms[1..][i - 1];
    }
  }

  lemma HeaderDescribes(crc: Str -> Word, m: Message)
    ensures Describes(HeaderOf(crc, m), crc, m)
  {
  }

  /** There is just one way of having got them. */
  lemma GotUnique(r: Received, r': Received, crc: Str -> Word, ms: seq<Message>, rest: Str)
    requires Got(r, crc, ms, rest) && Got(r', crc, ms, rest)
    ensures r == r'
  {
    assert forall i | 0 <= i < |ms| :: r.headers[i] == r'.headers[i] && r.data[i] == r'.data[i];
    assert r.headers == r'.headers && r.data == r'.data;
  }

  // ---------- different streams are received differently ----------

  lemma HalfThere(s: Str)
    requires |s| == 2
    ensures HalfBytes(HalfAt(s)) == s
  {
  }

  lemma WordThere(s: Str)
    requires |s| == 4
    ensures BytesOfWord(WordAt(s)) == s
  {
    var a: int, b: int, c: int, d: int := s[0], s[1], s[2], s[3];
    var x := WordAt(s);
    QuotientOf(x, 0x100, 0x1_0000 * a + 0x100 * b + c, d);
    QuotientOf(0x1_0000 * a + 0x100 * b + c, 0x100, 0x100 * a + b, c);
    QuotientOf(0x100 * a + b, 0x100, a, b);
  }

  lemma HeaderThere(s: Str)
    requires |s| >= HEADER_SIZE
    ensures PackHeader(UnpackHeader(s)) == s[..HEADER_SIZE]
  {
    hide HalfBytes, BytesOfWord, HalfAt, WordAt;
    HalfThere(s[..2]);
    WordThere(s[2..6]);
    WordThere(s[6..10]);
    WordThere(s[10..14]);
  }

  /** The stream that was received. */
  function Rejoined(r: Received): Str
    requires |r.headers| == |r.data|
    decreases |r.headers|
  {
    if r.headers == [] then r.rest
    else PackHeader(r.headers[0]) + r.data[0] + Rejoined(Received(r.headers[1..], r.data[1..], r.rest))
  }

  lemma {:induction false} ReceiveKeeps(s: Str)
    ensures |Receive(s).headers| == |Receive(s).data| && Rejoined(Receive(s)) == s
    decreases |s|
  {
    hide PackHeader, UnpackHeader;
    if |s| >= HEADER_SIZE {
      var end := HEADER_SIZE + UnpackHeader(s).datalen;
      if end <= |s| {
        HeaderThere(s);
        ReceiveKeeps(s[end..]);
        var more, r := Receive(s[end..]), Receive(s);
        assert r.headers[1..] == more.headers && r.data[1..] == more.data;
        assert s == s[..HEADER_SIZE] + s[HEADER_SIZE..end] + s[end..];
      }
    }
  }

  /** Nothing of a stream goes unnoticed by a receiver. */
  lemma ReceiveInjective(s: Str, t: Str)
    requires s != t
    ensures Receive(s) != Receive(t)
  {
    hide Receive, Rejoined;
    ReceiveKeeps(s);
    ReceiveKeeps(t);
  }
}
