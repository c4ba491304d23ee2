/** The length-prefixed message stream: what the input buffer makes of bytes
    that arrive in arbitrary pieces, and the sender's matching frames. */
module Framing {

  newtype byte = x: int | 0 <= x < 256

  const MAGIC: nat := 0x21
  const HEADER: nat := 8
  const TWO_32: nat := 0x1_0000_0000

  // Network byte order, as htonl writes it.
  function Encode32(n: nat): (b: seq<byte>)
    requires n < TWO_32
    ensures |b| == 4
  {
    [(n / 0x100_0000) as byte, (n / 0x1_0000 % 0x100) as byte, (n / 0x100 % 0x100) as byte, (n % 0x100) as byte]
  }

  function Decode32(b: seq<byte>): nat
    requires |b| == 4
  {
    b[0] as int * 0x100_0000 + b[1] as int * 0x1_0000 + b[2] as int * 0x100 + b[3] as int
  }

  lemma Decode32Encode32(n: nat)
    requires n < TWO_32
    ensures Decode32(Encode32(n)) == n
  {
    NetworkOrder(n);
  }

  // The most significant byte comes first.
  lemma NetworkOrder(n: nat)
    requires n < TWO_32
    ensures var b := Encode32(n);
      n == ((b[0] as int * 0x100 + b[1] as int) * 0x100 + b[2] as int) * 0x100 + b[3] as int
  {
    var high, middle := n / 0x1_0000, n / 0x100;
    assert high / 0x100 == n / 0x100_0000 && high == high / 0x100 * 0x100 + high % 0x100;
    assert middle / 0x100 == high && middle == high * 0x100 + middle % 0x100;
    assert n == middle * 0x100 + n % 0x100;
  }

  lemma Encode32Decode32(b: seq<byte>)
    requires |b| == 4
    ensures Decode32(b) < TWO_32 && Encode32(Decode32(b)) == b
  {
    Digits(b[0] as int, b[1] as int, b[2] as int, b[3] as int);
  }

  lemma Digits(a: nat, b: nat, c: nat, d: nat)
    requires a < 0x100 && b < 0x100 && c < 0x100 && d < 0x100
    ensures var n := a * 0x100_0000 + b * 0x1_0000 + c * 0x100 + d;
      && n < TWO_32 && n % 0x100 == d && n / 0x100 % 0x100 == c
      && n / 0x1_0000 % 0x100 == b && n / 0x100_0000 == a
  {
    var n := a * 0x100_0000 + b * 0x1_0000 + c * 0x100 + d;
    assert n / 0x100 == a * 0x1_0000 + b * 0x100 + c;
    assert n / 0x1_0000 == a * 0x100 + b;
  }

  predicate Sendable(json: seq<byte>) {
    0 < |json| && |json| + HEADER < TWO_32
  }

  function Frame(json: seq<byte>): (f: seq<byte>)
    requires Sendable(json)
    ensures |f| == HEADER + |json|
  {
    Encode32(MAGIC) + Encode32(|json|) + json
  }

  datatype Decoder = Decoder(buffer: seq<byte>, message: seq<byte>)

  function Magic(b: seq<byte>): nat
    requires |b| >= HEADER
  {
    Decode32(b[..4])
  }

  function Size(b: seq<byte>): nat
    requires |b| >= HEADER
  {
    Decode32(b[4..HEADER])
  }

  /** appendData: a whole frame empties the buffer, whatever follows it, and a
      wrong magic number empties everything. */
  function Append(d: Decoder, chunk: seq<byte>): Decoder {
    var b := d.buffer + chunk;
    if |b| <= HEADER then Decoder(b, d.message)
    else if Magic(b) != MAGIC then Decoder([], [])
    else if Size(b) + HEADER <= |b| then Decoder([], d.message + b[HEADER..HEADER + Size(b)])
    else Decoder(b, d.message)
  }

  // At most a header, or part of one good frame.
  predicate Waiting(b: seq<byte>) {
    |b| <= HEADER || (Magic(b) == MAGIC && |b| < Size(b) + HEADER)
  }

  /** After every append, from any state and for any bytes, the buffer is at
      most 8 bytes or a strict prefix of one good frame. */
  lemma AppendWaits(d: Decoder, chunk: seq<byte>)
    ensures Waiting(Append(d, chunk).buffer)
  {
    var b := d.buffer + chunk;
    assert |b| > HEADER ==> Append(d, chunk).buffer == [] || Append(d, chunk).buffer == b;
  }

  const GOOD: seq<byte> := [0, 0, 0, 0x21]

  /** A good frame as it stands in the bytes: the magic number, the length, the text. */
  function GoodFrame(text: seq<byte>): (f: seq<byte>)
    requires |text| < TWO_32
    ensures |f| == HEADER + |text|
  {
    GOOD + Encode32(|text|) + text
  }

  // What the sender writes is a good frame.
  lemma FrameGood(json: seq<byte>)
    requires Sendable(json)
    ensures Frame(json) == GoodFrame(json)
  {
    assert Encode32(MAGIC) == GOOD;
  }

  // A wrong magic number is one that differs from the good one in some byte.
  lemma MagicExact(b: seq<byte>)
    requires |b| >= HEADER
    ensures Magic(b) == MAGIC <==> GOOD <= b
  {
    Encode32Decode32(b[..4]);
    Decode32Encode32(MAGIC);
    assert Encode32(MAGIC) == GOOD;
  }

  // A buffer that begins with the good magic number begins with, or is the beginning
  // of, the frame whose length it declares.
  lemma HeaderExact(b: seq<byte>)
    requires |b| >= HEADER && GOOD <= b
    ensures Size(b) < TWO_32 && b[..HEADER] == GOOD + Encode32(Size(b))
  {
    Encode32Decode32(b[4..HEADER]);
    assert b[..HEADER] == b[..4] + b[4..HEADER];
  }

  // How an append may end, told from the bytes received.
  ghost predicate Appended(b: seq<byte>, message: seq<byte>, r: Decoder) {
    || (|b| <= HEADER && r == Decoder(b, message))
    || (|b| > HEADER && !(GOOD <= b) && r == Decoder([], []))
    || (|b| > HEADER && BeginsFrame(b) && r == Decoder(b, message))
    || (|b| > HEADER && exists text: seq<byte> :: Holds(b, text) && r == Decoder([], message + text))
  }

  ghost predicate AppendedTo(d: Decoder, chunk: seq<byte>, r: Decoder) {
    Appended(d.buffer + chunk, d.message, r)
  }

  // The bytes are part of a good frame.
  ghost predicate BeginsFrame(b: seq<byte>) {
    exists text: seq<byte> :: |text| < TWO_32 && |b| < HEADER + |text| && b <= GoodFrame(text)
  }

  // The bytes begin with a whole good frame of this text.
  predicate Holds(b: seq<byte>, text: seq<byte>) {
    |text| < TWO_32 && GoodFrame(text) <= b
  }

  /** From any state and for any bytes: text is handed on only if the bytes received
      begin with a whole good frame, and then it is the text of that frame; a wrong
      magic number leaves neither bytes nor message; and what begins a good frame
      waits. */
  lemma AppendExact(d: Decoder, chunk: seq<byte>)
    ensures AppendedTo(d, chunk, Append(d, chunk))
  {
    var b := d.buffer + chunk;
    if |b| > HEADER {
      MagicExact(b);
      if GOOD <= b { GoodAppended(d, chunk); }
    }
  }

  lemma GoodAppended(d: Decoder, chunk: seq<byte>)
    requires |d.buffer + chunk| > HEADER && GOOD <= d.buffer + chunk
    ensures AppendedTo(d, chunk, Append(d, chunk))
  {
    var b := d.buffer + chunk;
    MagicExact(b);
    HeaderExact(b);
    if Size(b) + HEADER <= |b| {
      var text := b[HEADER..HEADER + Size(b)];
      WholeFrame(b, Size(b));
      WholeAppended(b, d.message, text);
    } else {
      PartOfFrame(b, Size(b));
    }
  }

  lemma WholeAppended(b: seq<byte>, message: seq<byte>, text: seq<byte>)
    requires |b| > HEADER && Holds(b, text)
    ensures Appended(b, message, Decoder([], message + text))
  {
  }

  lemma WholeFrame(b: seq<byte>, size: nat)
    requires size < TWO_32 && HEADER + size <= |b| && b[..HEADER] == GOOD + Encode32(size)
    ensures Holds(b, b[HEADER..HEADER + size])
  {
    assert b == b[..HEADER] + b[HEADER..HEADER + size] + b[HEADER + size..];
  }

  lemma PartOfFrame(b: seq<byte>, size: nat)
    requires size < TWO_32 && HEADER < |b| < HEADER + size && b[..HEADER] == GOOD + Encode32(size)
    ensures BeginsFrame(b)
  {
    assert b == b[..HEADER] + b[HEADER..];
    FrameCompleted(b[..HEADER], b[HEADER..], seq(HEADER + size - |b|, i => 0));
  }

  lemma FrameCompleted(header: seq<byte>, part: seq<byte>, missing: seq<byte>)
    requires missing != [] && |part + missing| < TWO_32 && header == GOOD + Encode32(|part + missing|)
    ensures BeginsFrame(header + part)
  {
    var text := part + missing;
    GoodFrameOf(header, text);
    Assoc(header, part, missing);
    assert |header + part| < HEADER + |text| && header + part <= GoodFrame(text);
  }

  lemma GoodFrameOf(header: seq<byte>, text: seq<byte>)
    requires |text| < TWO_32 && header == GOOD + Encode32(|text|)
    ensures GoodFrame(text) == header + text
  {
  }

  /** And a whole good frame is always handed on. */
  lemma GoodFrameRead(d: Decoder, chunk: seq<byte>, text: seq<byte>)
    requires Holds(d.buffer + chunk, text) && |d.buffer + chunk| > HEADER
    ensures Append(d, chunk) == Decoder([], d.message + text)
  {
    var b, f := d.buffer + chunk, GoodFrame(text);
    assert f[..4] == GOOD && f[4..HEADER] == Encode32(|text|) && f[HEADER..] == text;
    assert b[..4] == f[..4] && b[4..HEADER] == f[4..HEADER] && b[HEADER..|f|] == f[HEADER..];
    MagicExact(b);
    Decode32Encode32(|text|);
  }

  function Concat(chunks: seq<seq<byte>>): seq<byte> {
    if chunks == [] then [] else chunks[0] + Concat(chunks[1..])
  }

  /** The read callback: append, and hand on a message if one is complete. */
  function Delivered(buffer: seq<byte>, chunks: seq<seq<byte>>): seq<seq<byte>>
    decreases |chunks|
  {
    if chunks == [] then []
    else
      var d := Append(Decoder(buffer, []), chunks[0]);
      (if |d.message| > 0 then [d.message] else []) + Delivered(d.buffer, chunks[1..])
  }

  // The messages stand in the bytes as good frames, in order and without overlap.
  ghost predicate Stand(msgs: seq<seq<byte>>, bytes: seq<byte>)
    decreases |msgs|, 1
  {
    msgs == [] || exists at: nat :: StandAt(msgs, bytes, at)
  }

  ghost predicate StandAt(msgs: seq<seq<byte>>, bytes: seq<byte>, at: nat)
    requires msgs != []
    decreases |msgs|, 0
  {
    && at + HEADER + |msgs[0]| <= |bytes| && Holds(bytes[at..], msgs[0])
    && Stand(msgs[1..], bytes[at + HEADER + |msgs[0]|..])
  }

  lemma StandLater(msgs: seq<seq<byte>>, before: seq<byte>, bytes: seq<byte>)
    requires Stand(msgs, bytes)
    ensures Stand(msgs, before + bytes)
  {
    if msgs != [] {
      var at: nat :| StandAt(msgs, bytes, at);
      var all, end := before + bytes, at + HEADER + |msgs[0]|;
      assert all[|before| + at..] == bytes[at..] && all[|before| + end..] == bytes[end..];
      assert StandAt(msgs, all, |before| + at);
    }
  }

  /** Nothing is handed on but good frames: whatever bytes arrive, in whatever
      pieces, every message delivered stands among them as a frame, in order and
      without overlap. */
  lemma {:induction false} DeliveredStands(buffer: seq<byte>, chunks: seq<seq<byte>>)
    ensures Stand(Delivered(buffer, chunks), buffer + Concat(chunks))
    decreases |chunks|
  {
    if chunks == [] {
    } else {
      DeliveredStands(Append(Decoder(buffer, []), chunks[0]).buffer, chunks[1..]);
      FirstStands(buffer, chunks);
    }
  }

  // The first chunk, when the others are delivered as they should be.
  lemma FirstStands(buffer: seq<byte>, chunks: seq<seq<byte>>)
    requires chunks != []
    requires var d := Append(Decoder(buffer, []), chunks[0]);
      Stand(Delivered(d.buffer, chunks[1..]), d.buffer + Concat(chunks[1..]))
    ensures Stand(Delivered(buffer, chunks), buffer + Concat(chunks))
  {
    var b, rest := buffer + chunks[0], Concat(chunks[1..]);
    var d := Append(Decoder(buffer, []), chunks[0]);
    var later := Delivered(d.buffer, chunks[1..]);
    Assoc(buffer, chunks[0], rest);
    FirstAppended(buffer, chunks[0]);
    DeliveredFirst(buffer, chunks);
    if d.message == [] {
      WaitingStands(b, d.buffer, rest, later);
    } else {
      MessageStands(b, d.message, rest, later);
    }
  }

  lemma DeliveredFirst(buffer: seq<byte>, chunks: seq<seq<byte>>)
    requires chunks != []
    ensures var d := Append(Decoder(buffer, []), chunks[0]);
      var later := Delivered(d.buffer, chunks[1..]);
      Delivered(buffer, chunks) == if d.message == [] then later else [d.message] + later
  {
    var later := Delivered(Append(Decoder(buffer, []), chunks[0]).buffer, chunks[1..]);
    NothingBefore(later);
  }

  lemma FirstAppended(buffer: seq<byte>, chunk: seq<byte>)
    ensures var b, d := buffer + chunk, Append(Decoder(buffer, []), chunk);
      if d.message == [] then d.buffer == b || d.buffer == [] else d.buffer == [] && Holds(b, d.message)
  {
    var b, d := buffer + chunk, Append(Decoder(buffer, []), chunk);
    AppendExact(Decoder(buffer, []), chunk);
    if d.message != [] {
      var text: seq<byte> :| Holds(b, text) && d == Decoder([], [] + text);
      NothingBefore(text);
    }
  }

  lemma WaitingStands(b: seq<byte>, buffer: seq<byte>, rest: seq<byte>, later: seq<seq<byte>>)
    requires (buffer == b || buffer == []) && Stand(later, buffer + rest)
    ensures Stand(later, b + rest)
  {
    if buffer == [] {
      NothingBefore(rest);
      StandLater(later, b, rest);
    }
  }

  lemma MessageStands(b: seq<byte>, message: seq<byte>, rest: seq<byte>, later: seq<seq<byte>>)
    requires Holds(b, message) && Stand(later, [] + rest)
    ensures Stand([message] + later, b + rest)
  {
    var end, all, msgs := HEADER + |message|, b + rest, [message] + later;
    NothingBefore(rest);
    StandLater(later, b[end..], rest);
    assert all[end..] == b[end..] + rest && all[0..] == all && msgs[1..] == later;
    assert StandAt(msgs, all, 0);
  }

  function FrameAll(msgs: seq<seq<byte>>): seq<byte>
    requires forall m :: m in msgs ==> Sendable(m)
  {
    if msgs == [] then [] else Frame(msgs[0]) + FrameAll(msgs[1..])
  }

  // A buffer that begins with the header of a frame knows its size.
  lemma HeaderRead(json: seq<byte>, b: seq<byte>, rest: seq<byte>)
    requires Sendable(json) && |b| >= HEADER && b <= Frame(json) + rest
    ensures Magic(b) == MAGIC && Size(b) == |json|
  {
    var f := Frame(json);
    assert b[..4] == (f + rest)[..4] == Encode32(MAGIC);
    assert b[4..HEADER] == (f + rest)[4..HEADER] == Encode32(|json|);
    Decode32Encode32(MAGIC);
    Decode32Encode32(|json|);
  }

  // What one chunk does to a buffer that holds the beginning of the stream.
  lemma AppendInStream(buffer: seq<byte>, chunk: seq<byte>, message: seq<byte>, json: seq<byte>, rest: seq<byte>)
    requires Sendable(json) && |buffer| < |Frame(json)| && buffer + chunk <= Frame(json) + rest
    ensures Append(Decoder(buffer, message), chunk)
         == if |buffer + chunk| < |Frame(json)| then Decoder(buffer + chunk, message)
            else Decoder([], message + json)
  {
    var b := buffer + chunk;
    if |b| > HEADER {
      HeaderRead(json, b, rest);
      if |b| >= |Frame(json)| {
        assert b[HEADER..HEADER + |json|] == (Frame(json) + rest)[HEADER..HEADER + |json|] == json;
      }
    }
  }

  function Feed(d: Decoder, chunks: seq<seq<byte>>): Decoder
    decreases |chunks|
  {
    if chunks == [] then d else Feed(Append(d, chunks[0]), chunks[1..])
  }

  /** Fragmentation independence: however the bytes of one frame are cut up,
      the message is complete with the last byte and not before, and it is the
      string that was sent. A message not yet fetched stays in front of it. */
  lemma {:induction false} FrameArrives(buffer: seq<byte>, message: seq<byte>, chunks: seq<seq<byte>>, json: seq<byte>)
    requires Sendable(json) && |buffer| < |Frame(json)| && buffer + Concat(chunks) <= Frame(json)
    ensures Feed(Decoder(buffer, message), chunks)
         == if |buffer + Concat(chunks)| < |Frame(json)| then Decoder(buffer + Concat(chunks), message)
            else Decoder([], message + json)
    decreases |chunks|
  {
    if chunks == [] {
      assert buffer + Concat(chunks) == buffer;
    } else {
      var b := buffer + chunks[0];
      var others := Concat(chunks[1..]);
      assert buffer + Concat(chunks) == b + others;
      assert b <= b + others;
      assert Frame(json) + [] == Frame(json);
      AppendInStream(buffer, chunks[0], message, json, []);
      if |b| < |Frame(json)| {
        FrameArrives(b, message, chunks[1..], json);
      } else {
        assert others == [];
        FeedNothing(Decoder([], message + json), chunks[1..]);
      }
    }
  }

  lemma {:induction false} FeedNothing(d: Decoder, chunks: seq<seq<byte>>)
    requires Concat(chunks) == [] && d.buffer == []
    ensures Feed(d, chunks) == d
    decreases |chunks|
  {
    if chunks == [] {
    } else {
      assert chunks[0] == [] && Concat(chunks[1..]) == [];
      FeedNothing(d, chunks[1..]);
    }
  }

  // The bytes a list of messages takes on the wire.
  function Cost(msgs: seq<seq<byte>>): nat {
    if msgs == [] then 0 else HEADER + |msgs[0]| + Cost(msgs[1..])
  }

  /** Every delivered message has used up its own bytes of the stream. */
  lemma {:induction false} DeliveredCost(buffer: seq<byte>, chunks: seq<seq<byte>>)
    ensures Cost(Delivered(buffer, chunks)) <= |buffer| + |Concat(chunks)|
    decreases |chunks|
  {
    if chunks == [] {
    } else {
      var d := Append(Decoder(buffer, []), chunks[0]);
      DeliveredCost(d.buffer, chunks[1..]);
      var later := Delivered(d.buffer, chunks[1..]);
      if |d.message| > 0 {
        assert ([d.message] + later)[1..] == later;
      } else {
        assert [] + later == later;
      }
    }
  }

  lemma {:induction false} FrameAllCost(msgs: seq<seq<byte>>)
    requires forall m :: m in msgs ==> Sendable(m)
    ensures |FrameAll(msgs)| == Cost(msgs)
  {
    if msgs == [] {
    } else {
      FrameAllCost(msgs[1..]);
    }
  }

  // The stream positions where frames end and where chunks end, counted from `base`.
  function FrameEnds(base: nat, msgs: seq<seq<byte>>): set<nat>
    decreases |msgs|
  {
    if msgs == [] then {}
    else
      var end := base + HEADER + |msgs[0]|;
      {end} + FrameEnds(end, msgs[1..])
  }

  function ChunkEnds(base: nat, chunks: seq<seq<byte>>): set<nat>
    decreases |chunks|
  {
    if chunks == [] then {base}
    else {base} + ChunkEnds(base + |chunks[0]|, chunks[1..])
  }

  // With `had` bytes of the first frame received at position base: every frame
  // end is a chunk end.
  ghost predicate Aligned(base: nat, had: nat, chunks: seq<seq<byte>>, msgs: seq<seq<byte>>) {
    FrameEnds(base, msgs) <= ChunkEnds(base + had, chunks)
  }

  lemma {:induction false} EndsBounds(base: nat, msgs: seq<seq<byte>>, chunks: seq<seq<byte>>)
    ensures forall e :: e in FrameEnds(base, msgs) ==> e >= base + HEADER
    ensures forall e :: e in ChunkEnds(base, chunks) ==> e >= base
    decreases |msgs| + |chunks|
  {
    if msgs == [] {
    } else {
      EndsBounds(base + HEADER + |msgs[0]|, msgs[1..], []);
    }
    if chunks != [] { EndsBounds(base + |chunks[0]|, [], chunks[1..]); }
  }

  /** A stream of frames is delivered whole if and only if no chunk reaches
      across the end of a frame: then each callback finds one message, and
      otherwise bytes are dropped that cannot be made up for. */
  lemma {:induction false} DeliveredIff(base: nat, buffer: seq<byte>, chunks: seq<seq<byte>>, msgs: seq<seq<byte>>)
    requires forall m :: m in msgs ==> Sendable(m)
    requires buffer + Concat(chunks) == FrameAll(msgs)
    requires if msgs == [] then buffer == [] else |buffer| < |Frame(msgs[0])|
    ensures Delivered(buffer, chunks) == msgs <==> Aligned(base, |buffer|, chunks, msgs)
    decreases |chunks|
  {
    if msgs == [] {
      NothingDelivered(buffer, chunks);
      assert Aligned(base, |buffer|, chunks, msgs);
    } else if chunks == [] {
    } else {
      var b := buffer + chunks[0];
      if |b| < |Frame(msgs[0])| {
        StreamWithin(buffer, chunks, msgs);
        DeliveredIff(base, b, chunks[1..], msgs);
        AlignedWithin(base, buffer, chunks, msgs);
      } else if |b| == |Frame(msgs[0])| {
        StreamAt(buffer, chunks, msgs);
        DeliveredIff(base + |b|, [], chunks[1..], msgs[1..]);
        AlignedAt(base, buffer, chunks, msgs);
      } else {
        StreamAcross(buffer, chunks, msgs);
        EndAcross(base, |buffer|, chunks, msgs);
      }
    }
  }

  lemma NothingDelivered(buffer: seq<byte>, chunks: seq<seq<byte>>)
    requires buffer + Concat(chunks) == []
    ensures Delivered(buffer, chunks) == []
  {
    DeliveredCost(buffer, chunks);
    assert |buffer + Concat(chunks)| == 0;
  }

  lemma Assoc<T>(a: seq<T>, b: seq<T>, c: seq<T>)
    ensures a + b + c == a + (b + c)
    ensures a + b <= a + (b + c)
  {
    assert a + b + c == a + (b + c);
  }

  lemma NothingBefore<T>(a: seq<T>)
    ensures [] + a == a == a + []
  {
  }

  lemma StreamWithin(buffer: seq<byte>, chunks: seq<seq<byte>>, msgs: seq<seq<byte>>)
    requires msgs != [] && chunks != [] && forall m :: m in msgs ==> Sendable(m)
    requires buffer + Concat(chunks) == FrameAll(msgs) && |buffer + chunks[0]| < |Frame(msgs[0])|
    ensures buffer + chunks[0] + Concat(chunks[1..]) == FrameAll(msgs)
    ensures Delivered(buffer, chunks) == Delivered(buffer + chunks[0], chunks[1..])
  {
    Assoc(buffer, chunks[0], Concat(chunks[1..]));
    AppendInStream(buffer, chunks[0], [], msgs[0], FrameAll(msgs[1..]));
    NothingBefore(Delivered(buffer + chunks[0], chunks[1..]));
  }

  // The chunk completes the first frame, or more.
  lemma StreamBeyond(buffer: seq<byte>, chunks: seq<seq<byte>>, msgs: seq<seq<byte>>)
    requires msgs != [] && chunks != [] && forall m :: m in msgs ==> Sendable(m)
    requires buffer + Concat(chunks) == FrameAll(msgs)
    requires |buffer| < |Frame(msgs[0])| <= |buffer + chunks[0]|
    ensures Delivered(buffer, chunks) == msgs <==> Delivered([], chunks[1..]) == msgs[1..]
    ensures buffer + chunks[0] + Concat(chunks[1..]) == Frame(msgs[0]) + FrameAll(msgs[1..])
  {
    Assoc(buffer, chunks[0], Concat(chunks[1..]));
    AppendInStream(buffer, chunks[0], [], msgs[0], FrameAll(msgs[1..]));
    NothingBefore(msgs[0]);
    FirstDelivered(buffer, chunks, msgs);
  }

  lemma StreamAt(buffer: seq<byte>, chunks: seq<seq<byte>>, msgs: seq<seq<byte>>)
    requires msgs != [] && chunks != [] && forall m :: m in msgs ==> Sendable(m)
    requires buffer + Concat(chunks) == FrameAll(msgs)
    requires |buffer| < |Frame(msgs[0])| == |buffer + chunks[0]|
    ensures [] + Concat(chunks[1..]) == FrameAll(msgs[1..])
    ensures Delivered(buffer, chunks) == msgs <==> Delivered([], chunks[1..]) == msgs[1..]
  {
    StreamBeyond(buffer, chunks, msgs);
    SameTail(buffer + chunks[0], Concat(chunks[1..]), Frame(msgs[0]), FrameAll(msgs[1..]));
  }

  lemma SameTail(a: seq<byte>, b: seq<byte>, c: seq<byte>, d: seq<byte>)
    requires a + b == c + d && |a| == |c|
    ensures [] + b == d
  {
    assert b == (a + b)[|a|..] == (c + d)[|c|..] == d;
  }

  lemma StreamAcross(buffer: seq<byte>, chunks: seq<seq<byte>>, msgs: seq<seq<byte>>)
    requires msgs != [] && chunks != [] && forall m :: m in msgs ==> Sendable(m)
    requires buffer + Concat(chunks) == FrameAll(msgs)
    requires |buffer| < |Frame(msgs[0])| < |buffer + chunks[0]|
    ensures Delivered(buffer, chunks) != msgs
  {
    StreamBeyond(buffer, chunks, msgs);
    DeliveredCost([], chunks[1..]);
    FrameAllCost(msgs[1..]);
    assert |buffer + chunks[0] + Concat(chunks[1..])| == |Frame(msgs[0]) + FrameAll(msgs[1..])|;
  }

  lemma FirstDelivered(buffer: seq<byte>, chunks: seq<seq<byte>>, msgs: seq<seq<byte>>)
    requires msgs != [] && chunks != [] && |msgs[0]| > 0
    requires Append(Decoder(buffer, []), chunks[0]) == Decoder([], msgs[0])
    ensures Delivered(buffer, chunks) == msgs <==> Delivered([], chunks[1..]) == msgs[1..]
  {
    var later := Delivered([], chunks[1..]);
    assert Delivered(buffer, chunks) == [msgs[0]] + later;
    assert msgs == [msgs[0]] + msgs[1..];
    assert ([msgs[0]] + later)[1..] == later;
  }

  // A chunk that stays within the first frame adds no end that matters.
  lemma EndWithin(base: nat, had: nat, chunks: seq<seq<byte>>, msgs: seq<seq<byte>>)
    requires msgs != [] && chunks != [] && had < HEADER + |msgs[0]|
    ensures Aligned(base, had, chunks, msgs) <==> Aligned(base, had + |chunks[0]|, chunks[1..], msgs)
  {
    var end := base + HEADER + |msgs[0]|;
    EndsBounds(end, msgs[1..], []);
    assert base + had !in FrameEnds(base, msgs);
  }

  // A chunk that ends with the first frame leaves the later ends to be met.
  lemma EndAt(base: nat, had: nat, chunks: seq<seq<byte>>, msgs: seq<seq<byte>>)
    requires msgs != [] && chunks != [] && had + |chunks[0]| == HEADER + |msgs[0]| && had < HEADER + |msgs[0]|
    ensures Aligned(base, had, chunks, msgs) <==> Aligned(base + had + |chunks[0]|, 0, chunks[1..], msgs[1..])
  {
    var end := base + had + |chunks[0]|;
    EndsBounds(end, msgs[1..], []);
    assert end in ChunkEnds(end, chunks[1..]);
    assert base + had !in FrameEnds(end, msgs[1..]);
  }

  lemma AlignedWithin(base: nat, buffer: seq<byte>, chunks: seq<seq<byte>>, msgs: seq<seq<byte>>)
    requires msgs != [] && chunks != [] && Sendable(msgs[0]) && |buffer| < |Frame(msgs[0])|
    ensures Aligned(base, |buffer|, chunks, msgs) <==> Aligned(base, |buffer + chunks[0]|, chunks[1..], msgs)
  {
    EndWithin(base, |buffer|, chunks, msgs);
  }

  lemma AlignedAt(base: nat, buffer: seq<byte>, chunks: seq<seq<byte>>, msgs: seq<seq<byte>>)
    requires msgs != [] && chunks != [] && Sendable(msgs[0]) && |buffer| < |Frame(msgs[0])| == |buffer + chunks[0]|
    ensures Aligned(base, |buffer|, chunks, msgs) <==> Aligned(base + |buffer + chunks[0]|, 0, chunks[1..], msgs[1..])
  {
    EndAt(base, |buffer|, chunks, msgs);
  }

  // A chunk across the end of the first frame misses that end for good.
  lemma EndAcross(base: nat, had: nat, chunks: seq<seq<byte>>, msgs: seq<seq<byte>>)
    requires msgs != [] && chunks != [] && had < HEADER + |msgs[0]| < had + |chunks[0]|
    ensures !Aligned(base, had, chunks, msgs)
  {
    var end := base + HEADER + |msgs[0]|;
    EndsBounds(base + had + |chunks[0]|, [], chunks[1..]);
    assert end in FrameEnds(base, msgs) && end !in ChunkEnds(base + had, chunks);
  }

  /** A whole stream, from an empty buffer: every message comes through, in order,
      if and only if every frame end is a chunk end. */
  lemma StreamDelivered(chunks: seq<seq<byte>>, msgs: seq<seq<byte>>)
    requires forall m :: m in msgs ==> Sendable(m)
    requires Concat(chunks) == FrameAll(msgs)
    ensures Delivered([], chunks) == msgs <==> FrameEnds(0, msgs) <= ChunkEnds(0, chunks)
  {
    assert [] + Concat(chunks) == FrameAll(msgs);
    DeliveredIff(0, [], chunks, msgs);
  }

  /** Two frames in one chunk: the second is dropped. */
  lemma SecondFrameDropped()
    ensures var a, b := [65 as byte], [66 as byte];
            Delivered([], [Frame(a) + Frame(b)]) == [a]
  {
    var a, b := [65 as byte], [66 as byte];
    var chunk := Frame(a) + Frame(b);
    assert [] + chunk == chunk && chunk <= Frame(a) + Frame(b);
    AppendInStream([], chunk, [], a, Frame(b));
    assert [] + a == a;
    assert [chunk][1..] == [];
  }

  // One chunk more of a run of callbacks.
  lemma DeliveredNext(done: seq<seq<byte>>, buffer: seq<byte>, chunks: seq<seq<byte>>, i: nat)
    requires i < |chunks|
    ensures var d := Append(Decoder(buffer, []), chunks[i]);
      done + Delivered(buffer, chunks[i..])
      == (if d.message != [] then done + [d.message] else done) + Delivered(d.buffer, chunks[i + 1..])
  {
    var d, left := Append(Decoder(buffer, []), chunks[i]), chunks[i..];
    assert left[0] == chunks[i] && left[1..] == chunks[i + 1..];
    if d.message != [] {
      Assoc(done, [d.message], Delivered(d.buffer, chunks[i + 1..]));
    } else {
      NothingBefore(Delivered(d.buffer, chunks[i + 1..]));
    }
  }

  class InputBufferManager {
    var buffer: seq<byte>
    var currentJson: seq<byte>

    constructor ()
      ensures State() == Decoder([], [])
    {
      buffer, currentJson := [], [];
    }

    function State(): Decoder
      reads this
    {
      Decoder(buffer, currentJson)
    }

    method AppendData(data: seq<byte>)
      modifies this
      ensures State() == Append(old(State()), data)
      ensures Waiting(buffer) && AppendedTo(old(State()), data, State())
    {
      AppendWaits(State(), data);
      AppendExact(State(), data);
      buffer := buffer + data;
      var dataSize := |buffer|;
      if dataSize > HEADER {
        var head := buffer[..HEADER];
        assert head[..4] == buffer[..4] && head[4..HEADER] == buffer[4..HEADER];
        var magicIdent := Decode32(head[..4]);
        var jsonSize := Decode32(head[4..HEADER]);
        if magicIdent != MAGIC {
          Reset();
          return;
        }
        if jsonSize + HEADER <= dataSize {
          var whole := buffer;
          buffer := [];
          currentJson := currentJson + whole[HEADER..HEADER + jsonSize];
        }
      }
    }

    method HasCompleteMessage() returns (complete: bool)
      ensures complete == (State().message != [])
    {
      complete := |currentJson| > 0;
    }

    method PopCurrentMessage() returns (json: seq<byte>)
      modifies this
      ensures json == old(currentJson) && State() == old(State()).(message := [])
    {
      json := currentJson;
      currentJson := [];
    }

    method Reset()
      modifies this
      ensures State() == Decoder([], [])
    {
      buffer, currentJson := [], [];
    }

    /** The read callback over a run of chunks: what reaches the command
        handler is `Delivered`. */
    method HandleReads(chunks: seq<seq<byte>>) returns (handled: seq<seq<byte>>)
      requires currentJson == []
      modifies this
      ensures handled == Delivered(old(buffer), chunks) && currentJson == []
      ensures Stand(handled, old(buffer) + Concat(chunks))
    {
      handled := [];
      DeliveredStands(buffer, chunks);
      NothingBefore(Delivered(buffer, chunks));
      assert chunks[0..] == chunks;
      for i := 0 to |chunks|
        invariant currentJson == []
        invariant handled + Delivered(buffer, chunks[i..]) == Delivered(old(buffer), chunks)
      {
        DeliveredNext(handled, buffer, chunks, i);
        AppendData(chunks[i]);
        var complete := HasCompleteMessage();
        if complete {
          var json := PopCurrentMessage();
          handled := handled + [json];
        }
      }
      NothingBefore(handled);
    }
  }
}
