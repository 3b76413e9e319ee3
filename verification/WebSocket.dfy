/** The WebSocket client's frames (sections 5.2 to 5.5 of RFC 6455): masked frames out, and the
    reassembly of one message from a byte stream that arrives in arbitrary chunks. */
module WebSocket {
  import opened Common
  import opened Utf8

  type Bytes = seq<byte>
  type Key = k: Bytes | |k| == 4 witness [0, 0, 0, 0]

  const CONTINUATION := 0
  const TEXT := 1
  const BINARY := 2
  const CLOSE := 8
  const PING := 9
  const PONG := 10

  // Bytes and numbers ------------------------------------------------------------------------

  /** Exclusive or of the low `bits` bits. */
  function Xor(a: nat, b: nat, bits: nat): nat {
    if bits == 0 then 0 else 2 * Xor(a / 2, b / 2, bits - 1) + (if a % 2 == b % 2 then 0 else 1)
  }

  function Power2(n: nat): nat {
    if n == 0 then 1 else 2 * Power2(n - 1)
  }

  lemma {:induction false} XorTwice(a: nat, b: nat, bits: nat)
    requires a < Power2(bits)
    ensures Xor(a, b, bits) < Power2(bits)
    ensures Xor(Xor(a, b, bits), b, bits) == a
  {
    if bits > 0 {
      XorTwice(a / 2, b / 2, bits - 1);
      Halves(Xor(a / 2, b / 2, bits - 1), if a % 2 == b % 2 then 0 else 1);
      assert a / 2 < Power2(bits - 1);
      hide Power2;
    }
  }

  lemma Halves(x: nat, bit: nat)
    requires bit < 2
    ensures (2 * x + bit) / 2 == x && (2 * x + bit) % 2 == bit
  {
  }

  lemma EightBits()
    ensures Power2(8) == 256
  {
    assert Power2(4) == 16;
    assert Power2(6) == 64;
  }

  function XorByte(a: byte, b: byte): (r: byte)
    ensures Xor(r, b, 8) == a
  {
    EightBits();
    XorTwice(a, b, 8);
    Xor(a, b, 8)
  }

  /** `struct.pack` of an unsigned big-endian number in `n` bytes. */
  function Pack(value: nat, n: nat): (bs: Bytes)
    ensures |bs| == n
  {
    if n == 0 then [] else Pack(value / 256, n - 1) + [value % 256]
  }

  function Unpack(bs: Bytes): nat {
    if bs == [] then 0 else 256 * Unpack(bs[..|bs| - 1]) + bs[|bs| - 1]
  }

  function Power256(n: nat): nat {
    if n == 0 then 1 else 256 * Power256(n - 1)
  }

  lemma {:induction false} UnpackPack(value: nat, n: nat)
    requires value < Power256(n)
    ensures Unpack(Pack(value, n)) == value
  {
    if n > 0 {
      UnpackPack(value / 256, n - 1);
      var bs := Pack(value, n);
      assert bs[..|bs| - 1] == Pack(value / 256, n - 1);
    }
  }

  lemma Powers()
    ensures Power256(2) == 65536 && Power256(8) == 0x1_0000_0000_0000_0000
  {
    assert Power256(4) == 0x1_0000_0000;
    assert Power256(6) == 0x1_0000_0000_0000;
  }

  // Frames ------------------------------------------------------------------------------

  function Mask(payload: Bytes, key: Key): (r: Bytes)
    ensures |r| == |payload|
  {
    seq(|payload|, i requires 0 <= i < |payload| => XorByte(payload[i], key[i % 4]))
  }

  /** The three forms of a length. */
  datatype Form = Short | Medium | Long

  predicate FormFits(form: Form, length: nat) {
    length < match form case Short => 126 case Medium => 65536 case Long => 0x1_0000_0000_0000_0000
  }

  /** A length after the mask bit, in one of its forms. */
  function Length(form: Form, mark: byte, length: nat): Bytes
    requires mark == 0 || mark == 128
    requires FormFits(form, length)
  {
    match form
    case Short => [mark + length]
    case Medium => [mark + 126] + Pack(length, 2)
    case Long => [mark + 127] + Pack(length, 8)
  }

  /** A client frame: final, masked, with the shortest form of its length. */
  function Frame(opcode: nat, payload: Bytes, key: Key): Bytes
    requires opcode < 16 && |payload| < 0x1_0000_0000_0000_0000
  {
    var n := |payload|;
    [0x80 + opcode]
    + Length(if n < 126 then Short else if n < 65536 then Medium else Long, 0x80, n)
    + key + Mask(payload, key)
  }

  /** The first byte, the payload length and what follows the length, if all of it is there. */
  datatype Head = Head(first: byte, second: byte, length: nat, rest: Bytes)

  function ReadHead(s: Bytes): Option<Head> {
    if |s| < 2 then None
    else
      var short := s[1] % 128;
      if short == 126 then if |s| < 4 then None else Some(Head(s[0], s[1], Unpack(s[2..4]), s[4..]))
      else if short == 127 then if |s| < 10 then None else Some(Head(s[0], s[1], Unpack(s[2..10]), s[10..]))
      else Some(Head(s[0], s[1], short, s[2..]))
  }

  /** How a server takes a client frame apart. */
  function Unframe(s: Bytes): Option<(nat, Bytes, Bytes)> {
    var h := ReadHead(s);
    if h.None? || h.value.second < 128 || |h.value.rest| < 4 + h.value.length then None
    else
      var rest := h.value.rest;
      Some((h.value.first % 16, Mask(rest[4..4 + h.value.length], rest[..4]), rest[4 + h.value.length..]))
  }

  lemma MaskTwice(payload: Bytes, key: Key)
    ensures Mask(Mask(payload, key), key) == payload
  {
    forall i | 0 <= i < |payload| ensures XorByte(XorByte(payload[i], key[i % 4]), key[i % 4]) == payload[i] {
      var r := XorByte(payload[i], key[i % 4]);
      assert Xor(r, key[i % 4], 8) == payload[i];
    }
  }

  lemma ReadShort(s: Bytes, first: byte, second: byte, tail: Bytes)
    requires s == [first, second] + tail && second % 128 < 126
    ensures ReadHead(s) == Some(Head(first, second, second % 128, tail))
  {
    assert s[2..] == tail;
  }

  lemma ReadLonger(s: Bytes, first: byte, second: byte, packed: Bytes, tail: Bytes)
    requires s == [first, second] + packed + tail
    requires (|packed| == 2 && second % 128 == 126) || (|packed| == 8 && second % 128 == 127)
    ensures ReadHead(s) == Some(Head(first, second, Unpack(packed), tail))
  {
    hide Unpack;
    assert s[2..2 + |packed|] == packed && s[2 + |packed|..] == tail;
  }

  lemma ShortHead(first: byte, mark: byte, length: nat, tail: Bytes)
    requires (mark == 0 || mark == 128) && length < 126
    ensures ReadHead([first] + [mark + length] + tail) == Some(Head(first, mark + length, length, tail))
  {
    hide ReadHead;
    var s := [first] + [mark + length] + tail;
    assert s == [first, mark + length] + tail;
    ReadShort(s, first, mark + length, tail);
  }

  lemma LongerHead(first: byte, second: byte, packed: Bytes, tail: Bytes)
    requires (|packed| == 2 && second % 128 == 126) || (|packed| == 8 && second % 128 == 127)
    ensures ReadHead([first] + ([second] + packed) + tail) == Some(Head(first, second, Unpack(packed), tail))
  {
    hide ReadHead, Unpack;
    var s := [first] + ([second] + packed) + tail;
    assert s == [first, second] + packed + tail;
    ReadLonger(s, first, second, packed, tail);
  }

  /** Every length form of a head is read back. */
  lemma HeadForms(first: byte, form: Form, mark: byte, length: nat, tail: Bytes)
    requires (mark == 0 || mark == 128) && FormFits(form, length)
    ensures var h := ReadHead([first] + Length(form, mark, length) + tail);
      h.Some? && h.value.first == first && (h.value.second < 128 <==> mark == 0)
      && h.value.length == length && h.value.rest == tail
  {
    Powers();
    hide Pack, Unpack, Power256, ReadHead;
    match form {
      case Short => ShortHead(first, mark, length, tail);
      case Medium =>
        UnpackPack(length, 2);
        LongerHead(first, mark + 126, Pack(length, 2), tail);
      case Long =>
        UnpackPack(length, 8);
        LongerHead(first, mark + 127, Pack(length, 8), tail);
    }
  }

  /** Taking a client frame apart gives back its opcode and payload, for every masking key and
      every length, and leaves what follows it. */
  lemma UnframeFrame(opcode: nat, payload: Bytes, key: Key, tail: Bytes)
    requires opcode < 16 && |payload| < 0x1_0000_0000_0000_0000
    ensures Unframe(Frame(opcode, payload, key) + tail) == Some((opcode, payload, tail))
  {
    hide ReadHead, Length, Mask;
    var n := |payload|;
    var form := if n < 126 then Short else if n < 65536 then Medium else Long;
    var body := key + Mask(payload, key) + tail;
    HeadForms(0x80 + opcode, form, 0x80, n, body);
    assert Frame(opcode, payload, key) + tail == [0x80 + opcode] + Length(form, 0x80, n) + body;
    assert body[..4] == key && body[4..4 + n] == Mask(payload, key) && body[4 + n..] == tail;
    MaskTwice(payload, key);
  }

  // Receiving ---------------------------------------------------------------------------

  datatype Fault = TooBig | Interleaved | UnexpectedContinuation | UnsupportedOpcode(opcode: nat)
  datatype Result = Message(data: Bytes) | Failed(fault: Fault) | ClosedByServer | EndOfStream | NotOpen

  /** The outcome of a call: its result, what it leaves unread, and the pongs it sent. */
  datatype Outcome = Outcome(result: Result, rest: Bytes, pongs: seq<Bytes>)

  function AfterPongs(pongs: seq<Bytes>, o: Outcome): Outcome {
    o.(pongs := pongs + o.pongs)
  }

  /** Receiving as a function of the whole byte stream: `message` is what was assembled, and
      `expecting` says that a continuation must follow. */
  function Receive(s: Bytes, message: Bytes, expecting: bool, cap: nat): Outcome
    decreases |s|, 1
  {
    var h := ReadHead(s);
    if h.None? then Outcome(EndOfStream, s, [])
    else
      var Head(first, _, length, rest) := h.value;
      if length + |message| > cap then Outcome(Failed(TooBig), rest, [])
      else if |rest| < length then Outcome(EndOfStream, rest, [])
      else Handle(first >= 128, first % 16, rest[..length], rest[length..], message, expecting, cap, |s|)
  }

  function Handle(fin: bool, opcode: nat, payload: Bytes, rest: Bytes, message: Bytes, expecting: bool,
                  cap: nat, size: nat): Outcome
    requires |rest| < size
    decreases size, 0
  {
    if opcode == PING then AfterPongs([payload], Receive(rest, message, expecting, cap))
    else if opcode == PONG then Receive(rest, message, expecting, cap)
    else if opcode == CLOSE then Outcome(ClosedByServer, rest, [])
    else if opcode == TEXT || opcode == BINARY then
      if expecting then Outcome(Failed(Interleaved), rest, []) else Append(fin, payload, rest, message, cap)
    else if opcode == CONTINUATION then
      if !expecting then Outcome(Failed(UnexpectedContinuation), rest, []) else Append(fin, payload, rest, message, cap)
    else Outcome(Failed(UnsupportedOpcode(opcode)), rest, [])
  }

  function Append(fin: bool, payload: Bytes, rest: Bytes, message: Bytes, cap: nat): Outcome
    decreases |rest|, 2
  {
    if fin then Outcome(Message(message + payload), rest, []) else Receive(rest, message + payload, true, cap)
  }

  /** What the chunks deliver: an empty one is the end of the stream. */
  function Flatten(chunks: seq<Bytes>): Bytes {
    if chunks == [] || chunks[0] == [] then [] else chunks[0] + Flatten(chunks[1..])
  }

  lemma FlattenFirst(chunks: seq<Bytes>)
    ensures chunks == [] || chunks[0] == [] ==> Flatten(chunks) == []
    ensures chunks != [] ==> Flatten(chunks) == if chunks[0] == [] then [] else chunks[0] + Flatten(chunks[1..])
  {
  }

  /** The chunks one after the other, up to an empty one. */
  lemma {:induction false} FlattenExactly(chunks: seq<Bytes>, more: seq<Bytes>)
    requires forall i :: 0 <= i < |chunks| ==> chunks[i] != []
    ensures Flatten(chunks + more) == Flatten(chunks) + Flatten(more)
    ensures |chunks| == 1 ==> Flatten(chunks) == chunks[0]
    ensures more != [] && more[0] == [] ==> Flatten(more) == []
  {
    hide *;
    FlattenFirst(chunks);
    FlattenFirst(more);
    if chunks == [] {
      assert chunks + more == more;
    } else {
      BehindFirst(chunks, more);
      FlattenFirst(chunks + more);
      FlattenFirst(chunks[1..]);
      FlattenExactly(chunks[1..], more);
      Reassociate(chunks[0], Flatten(chunks[1..]), Flatten(more));
    }
  }

  lemma BehindFirst(chunks: seq<Bytes>, more: seq<Bytes>)
    requires chunks != []
    ensures (chunks + more)[0] == chunks[0] && (chunks + more)[1..] == chunks[1..] + more
  {
  }

  lemma Reassociate(a: Bytes, b: Bytes, c: Bytes)
    ensures a + (b + c) == a + b + c && a + [] == a
  {
  }

  datatype Outgoing = Outgoing(opcode: nat, payload: Bytes, key: Key)

  /** The frames without their masking keys, which are random. */
  function Shown(frames: seq<Outgoing>): seq<(nat, Bytes)> {
    seq(|frames|, i requires 0 <= i < |frames| => (frames[i].opcode, frames[i].payload))
  }

  /** A pong for each ping. */
  function Answers(pongs: seq<Bytes>): seq<(nat, Bytes)> {
    seq(|pongs|, i requires 0 <= i < |pongs| => (PONG, pongs[i]))
  }

  lemma AnswerOneMore(had: seq<(nat, Bytes)>, pongs: seq<Bytes>, payload: Bytes)
    ensures had + Answers(pongs) + [(PONG, payload)] == had + Answers(pongs + [payload])
  {
  }

  lemma NoAnswers(had: seq<(nat, Bytes)>)
    ensures had + Answers([]) == had
  {
  }

  /** One step of receiving. */
  lemma Unfold(s: Bytes, message: Bytes, expecting: bool, cap: nat)
    ensures var h := ReadHead(s);
      h.None? ==> Receive(s, message, expecting, cap) == Outcome(EndOfStream, s, [])
    ensures var h := ReadHead(s);
      h.Some? ==>
        var Head(first, _, length, rest) := h.value;
        && |rest| < |s|
        && (length + |message| > cap ==> Receive(s, message, expecting, cap) == Outcome(Failed(TooBig), rest, []))
        && (length + |message| <= cap && |rest| < length ==>
              Receive(s, message, expecting, cap) == Outcome(EndOfStream, rest, []))
        && (length + |message| <= cap && |rest| >= length ==>
              Receive(s, message, expecting, cap) ==
              Handle(first >= 128, first % 16, rest[..length], rest[length..], message, expecting, cap, |s|))
  {
  }

  /** A connection: the receive buffer, the chunks the socket has still to deliver, and the
      frames sent. */
  class Client {
    const cap: nat
    var buffer: Bytes
    var chunks: seq<Bytes>
    var sent: seq<Outgoing>
    var open: bool

    constructor (extra: Bytes, chunks: seq<Bytes>, cap: nat)
      ensures Stream() == extra + Flatten(chunks) && this.cap == cap && sent == [] && open
    {
      this.buffer, this.chunks, this.cap, sent, open := extra, chunks, cap, [], true;
    }

    /** Everything that is still to be read. */
    ghost function Stream(): Bytes
      reads this
    {
      buffer + Flatten(chunks)
    }

    /** Exactly `count` bytes, or None at the end of the stream. */
    method ReadExact(count: nat) returns (data: Option<Bytes>)
      modifies this`buffer, this`chunks
      ensures |old(Stream())| < count ==> data.None? && Stream() == old(Stream())
      ensures |old(Stream())| >= count ==>
        data == Some(old(Stream())[..count]) && Stream() == old(Stream())[count..]
    {
      while |buffer| < count
        invariant Stream() == old(Stream())
        decreases |chunks|
      {
        if chunks == [] || chunks[0] == [] {
          return None;
        }
        buffer, chunks := buffer + chunks[0], chunks[1..];
      }
      var front := buffer[..count];
      buffer := buffer[count..];
      assert old(Stream()) == front + Stream();
      return Some(front);
    }

    method Send(opcode: nat, payload: Bytes)
      modifies this`sent
      ensures old(sent) <= sent && Shown(sent) == Shown(old(sent)) + [(opcode, payload)]
    {
      var key: Key :| true;
      sent := sent + [Outgoing(opcode, payload, key)];
    }

    /** The head of a frame: its first byte and its payload length. */
    method ReadHeader() returns (first: byte, length: Option<nat>)
      modifies this`buffer, this`chunks
      ensures var h := ReadHead(old(Stream()));
        if h.None? then length.None?
        else first == h.value.first && length == Some(h.value.length) && Stream() == h.value.rest
    {
      first, length := 0, None;
      ghost var s := Stream();
      assert |s| >= 4 ==> s[2..][..2] == s[2..4];
      assert |s| >= 10 ==> s[2..][..8] == s[2..10];
      var two := ReadExact(2);
      if two.None? {
        return;
      }
      first := two.value[0];
      var short := two.value[1] % 128;
      if short < 126 {
        length := Some(short);
        return;
      }
      var more := ReadExact(if short == 126 then 2 else 8);
      if more.Some? {
        length := Some(Unpack(more.value));
      }
    }

    method Close()
      modifies this`sent, this`open
      ensures !open && old(sent) <= sent
      ensures Shown(sent) == Shown(old(sent)) + if old(open) then [(CLOSE, [])] else []
    {
      if open {
        open := false;
        Send(CLOSE, []);
      } else {
        assert Shown(sent) + [] == Shown(sent);
      }
    }

    /** Reassembles the next message. The result depends on the bytes of the stream alone, not on
        how they were chunked. What is sent is one pong with the same payload for each ping, in
        order, then a close if the server closed, and nothing else. */
    method RecvText() returns (result: Result)
      modifies this
      ensures !old(open) ==> result == NotOpen && Stream() == old(Stream()) && sent == old(sent) && !open
      ensures old(open) ==>
        var o := Receive(old(Stream()), [], false, cap);
        && result == o.result
        && (result != EndOfStream ==> Stream() == o.rest)
        && old(sent) <= sent
        && Shown(sent) == Shown(old(sent)) + Answers(o.pongs) + (if result == ClosedByServer then [(CLOSE, [])] else [])
        && (open <==> result != ClosedByServer)
    {
      hide Receive, ReadHead, Shown, Answers;
      if !open {
        return NotOpen;
      }
      var message: Bytes := [];
      var expecting := false;
      ghost var pongs: seq<Bytes> := [];
      ghost var goal := Receive(Stream(), [], false, cap);
      ghost var had := Shown(sent);
      NoAnswers(had);
      while true
        invariant open && old(sent) <= sent
        invariant Shown(sent) == had + Answers(pongs)
        invariant goal == AfterPongs(pongs, Receive(Stream(), message, expecting, cap))
        decreases |Stream()|
      {
        ghost var before := Stream();
        Unfold(before, message, expecting, cap);
        assert pongs + [] == pongs && Shown(sent) + [] == Shown(sent);
        var first, length := ReadHeader();
        if length.None? {
          return EndOfStream;
        }
        if length.value + |message| > cap {
          return Failed(TooBig);
        }
        var payload := ReadExact(length.value);
        if payload.None? {
          return EndOfStream;
        }
        var fin, opcode := first >= 128, first % 16;
        if opcode == PING {
          Send(PONG, payload.value);
          AnswerOneMore(had, pongs, payload.value);
          pongs := pongs + [payload.value];
          continue;
        }
        if opcode == PONG {
          continue;
        }
        if opcode == CLOSE {
          Close();
          return ClosedByServer;
        }
        if opcode == TEXT || opcode == BINARY {
          if expecting {
            return Failed(Interleaved);
          }
        } else if opcode == CONTINUATION {
          if !expecting {
            return Failed(UnexpectedContinuation);
          }
        } else {
          return Failed(UnsupportedOpcode(opcode));
        }
        message := message + payload.value;
        expecting := !fin;
        if !expecting {
          return Message(message);
        }
      }
    }
  }

  // Whole messages ----------------------------------------------------------------------

  /** A frame as the server sends it: not masked, its length in any form that holds it. */
  datatype ServerFrame = ServerFrame(fin: bool, opcode: nat, payload: Bytes, form: Form)

  predicate Sendable(f: ServerFrame) {
    f.opcode < 16 && FormFits(f.form, |f.payload|)
  }

  function EncodeFrame(f: ServerFrame): Bytes
    requires Sendable(f)
  {
    [(if f.fin then 128 else 0) + f.opcode] + Length(f.form, 0, |f.payload|) + f.payload
  }

  function EncodeFrames(frames: seq<ServerFrame>): Bytes
    requires forall f :: f in frames ==> Sendable(f)
  {
    if frames == [] then [] else EncodeFrame(frames[0]) + EncodeFrames(frames[1..])
  }

  predicate IsControl(f: ServerFrame) {
    f.opcode == PING || f.opcode == PONG
  }

  /** One complete message (section 5.4): a data frame, continuations up to the final one, and
      pings and pongs anywhere before the last frame. */
  predicate OneMessage(frames: seq<ServerFrame>, expecting: bool) {
    frames != [] &&
    var f := frames[0];
    if IsControl(f) then OneMessage(frames[1..], expecting)
    else
      && (if expecting then f.opcode == CONTINUATION else f.opcode == TEXT || f.opcode == BINARY)
      && (if f.fin then |frames| == 1 else OneMessage(frames[1..], true))
  }

  function Data(frames: seq<ServerFrame>): Bytes {
    if frames == [] then [] else (if IsControl(frames[0]) then [] else frames[0].payload) + Data(frames[1..])
  }

  function Pings(frames: seq<ServerFrame>): seq<Bytes> {
    if frames == [] then [] else (if frames[0].opcode == PING then [frames[0].payload] else []) + Pings(frames[1..])
  }

  /** Every frame, control frames too, fits the cap on top of the data before it. */
  predicate WithinCap(frames: seq<ServerFrame>, have: nat, cap: nat) {
    frames == [] ||
    (|frames[0].payload| + have <= cap &&
     WithinCap(frames[1..], if IsControl(frames[0]) then have else have + |frames[0].payload|, cap))
  }

  lemma FirstFrame(f: ServerFrame, tail: Bytes, message: Bytes, expecting: bool, cap: nat)
    requires Sendable(f)
    ensures Receive(EncodeFrame(f) + tail, message, expecting, cap) ==
      if |f.payload| + |message| > cap then Outcome(Failed(TooBig), f.payload + tail, [])
      else Handle(f.fin, f.opcode, f.payload, tail, message, expecting, cap, |EncodeFrame(f) + tail|)
  {
    hide Receive, ReadHead, Length, Handle;
    var first := (if f.fin then 128 else 0) + f.opcode;
    var s := EncodeFrame(f) + tail;
    assert s == [first] + Length(f.form, 0, |f.payload|) + (f.payload + tail);
    HeadForms(first, f.form, 0, |f.payload|, f.payload + tail);
    Unfold(s, message, expecting, cap);
    assert (f.payload + tail)[..|f.payload|] == f.payload && (f.payload + tail)[|f.payload|..] == tail;
  }

  /** For every stream that encodes one complete message: it is received exactly if every frame
      fits the cap. Then the result is the data of its frames in order, each ping has been
      answered in order, and exactly the trailing bytes are left. */
  lemma {:induction false} ReceiveMessage(frames: seq<ServerFrame>, tail: Bytes, message: Bytes, expecting: bool,
                                          cap: nat)
    requires OneMessage(frames, expecting) && forall f :: f in frames ==> Sendable(f)
    ensures var o := Receive(EncodeFrames(frames) + tail, message, expecting, cap);
      if WithinCap(frames, |message|, cap) then o == Outcome(Message(message + Data(frames)), tail, Pings(frames))
      else o.result == Failed(TooBig)
  {
    hide EncodeFrames, EncodeFrame, Receive, FormFits;
    var f, more := frames[0], frames[1..];
    SplitFrames(frames, tail);
    FirstFrame(f, EncodeFrames(more) + tail, message, expecting, cap);
    if |f.payload| + |message| <= cap {
      if IsControl(f) {
        ReceiveMessage(more, tail, message, expecting, cap);
        assert [] + Data(more) == Data(more) && [] + Pings(more) == Pings(more);
      } else if f.fin {
        NoFrames(more, tail);
        assert WithinCap(more, |message| + |f.payload|, cap);
        assert message + (f.payload + []) == message + f.payload;
      } else {
        ReceiveMessage(more, tail, message + f.payload, true, cap);
        assert |message + f.payload| == |message| + |f.payload|;
        assert message + f.payload + Data(more) == message + (f.payload + Data(more));
        assert [] + Pings(more) == Pings(more);
      }
    }
  }

  lemma SplitFrames(frames: seq<ServerFrame>, tail: Bytes)
    requires frames != [] && forall f :: f in frames ==> Sendable(f)
    ensures EncodeFrames(frames) + tail == EncodeFrame(frames[0]) + (EncodeFrames(frames[1..]) + tail)
  {
  }

  lemma NoFrames(more: seq<ServerFrame>, tail: Bytes)
    requires more == []
    ensures EncodeFrames(more) + tail == tail && Data(more) == [] && Pings(more) == []
  {
  }

  // The bytes themselves ----------------------------------------------------------------------

  /** Bit `k` of a number. */
  ghost function Bit(a: nat, k: nat): nat {
    if k == 0 then a % 2 else Bit(a / 2, k - 1)
  }

  /** A bit of an exclusive or is set exactly when the two bits differ. */
  lemma {:induction false} XorBits(a: nat, b: nat, bits: nat, k: nat)
    requires k < bits
    ensures Bit(Xor(a, b, bits), k) == if Bit(a, k) != Bit(b, k) then 1 else 0
  {
    Halves(Xor(a / 2, b / 2, bits - 1), if a % 2 == b % 2 then 0 else 1);
    if k > 0 {
      XorBits(a / 2, b / 2, bits - 1, k - 1);
    }
  }

  /** Byte `r` is the exclusive or of the bytes `a` and `b`. */
  ghost predicate IsXor(r: byte, a: byte, b: byte) {
    forall k :: 0 <= k < 8 ==> (Bit(r, k) == 1 <==> Bit(a, k) != Bit(b, k))
  }

  lemma MaskIs(payload: Bytes, key: Key, i: nat)
    requires i < |payload|
    ensures IsXor(Mask(payload, key)[i], payload[i], key[i % 4])
  {
    var a, b := payload[i], key[i % 4];
    hide Bit, Xor;
    forall k | 0 <= k < 8 ensures Bit(XorByte(a, b), k) == 1 <==> Bit(a, k) != Bit(b, k) {
      XorBits(a, b, 8, k);
      XorByteIs(a, b);
    }
  }

  lemma XorByteIs(a: byte, b: byte)
    ensures XorByte(a, b) == Xor(a, b, 8)
  {
    hide Xor;
  }

  /** The number that four bytes make, the highest first. */
  ghost function Four(a: nat, b: nat, c: nat, d: nat): nat {
    0x100_0000 * a + 0x1_0000 * b + 0x100 * c + d
  }

  lemma UnpackIs(bs: Bytes)
    ensures |bs| == 2 ==> Unpack(bs) == Four(0, 0, bs[0], bs[1])
    ensures |bs| == 8 ==>
      Unpack(bs) == 0x1_0000_0000 * Four(bs[0], bs[1], bs[2], bs[3]) + Four(bs[4], bs[5], bs[6], bs[7])
  {
    if |bs| >= 1 {
      UnpackLast(bs);
    }
    if |bs| == 2 {
      UnpackLast(bs[..1]);
    }
    if |bs| == 8 {
      hide Unpack;
      UnpackLast(bs[..7]);
      UnpackLast(bs[..6]);
      UnpackLast(bs[..5]);
      UnpackLast(bs[..4]);
      UnpackLast(bs[..3]);
      UnpackLast(bs[..2]);
      UnpackLast(bs[..1]);
    }
  }

  lemma UnpackLast(bs: Bytes)
    requires bs != []
    ensures Unpack(bs) == 256 * Unpack(bs[..|bs| - 1]) + bs[|bs| - 1]
    ensures forall k :: 0 <= k < |bs| ==> bs[..|bs| - 1][..k] == bs[..k]
    ensures Unpack([]) == 0 && bs[..0] == []
  {
  }

  /** A length with its mark: in one byte, in two behind 126, or in eight behind 127, the highest first. */
  ghost predicate IsLength(bs: Bytes, mark: byte, length: nat) {
    || (|bs| == 1 && length < 126 && bs[0] == mark + length)
    || (|bs| == 3 && bs[0] == mark + 126 && length == Four(0, 0, bs[1], bs[2]))
    || (|bs| == 9 && bs[0] == mark + 127
        && length == 0x1_0000_0000 * Four(bs[1], bs[2], bs[3], bs[4]) + Four(bs[5], bs[6], bs[7], bs[8]))
  }

  lemma LengthIs(form: Form, mark: byte, length: nat)
    requires (mark == 0 || mark == 128) && FormFits(form, length)
    ensures IsLength(Length(form, mark, length), mark, length)
    ensures |Length(form, mark, length)| == match form case Short => 1 case Medium => 3 case Long => 9
  {
    Powers();
    hide Pack, Unpack, Power256;
    match form {
      case Short =>
      case Medium =>
        UnpackPack(length, 2);
        UnpackIs(Pack(length, 2));
      case Long =>
        UnpackPack(length, 8);
        UnpackIs(Pack(length, 8));
    }
  }

  /** The bytes of a client frame: the final bit with the opcode, the mask bit with the shortest form
      of the length, the key, and the payload, each byte of it changed by one of the key. */
  lemma FrameBytes(opcode: nat, payload: Bytes, key: Key)
    requires opcode < 16 && |payload| < 0x1_0000_0000_0000_0000
    ensures
      var n := |payload|;
      var k := if n < 126 then 2 else if n < 65536 then 4 else 10;
      var frame := Frame(opcode, payload, key);
      && |frame| == k + 4 + n
      && frame[0] == 128 + opcode
      && IsLength(frame[1..k], 128, n)
      && frame[k..k + 4] == key
      && forall i :: 0 <= i < n ==> IsXor(frame[k + 4 + i], payload[i], key[i % 4])
  {
    var n := |payload|;
    var form := if n < 126 then Short else if n < 65536 then Medium else Long;
    LengthIs(form, 128, n);
    assert Frame(opcode, payload, key) == [128 + opcode] + Length(form, 128, n) + key + Mask(payload, key);
    hide *;
    FourParts([128 + opcode], Length(form, 128, n), key, Mask(payload, key));
    forall i | 0 <= i < n ensures IsXor(Mask(payload, key)[i], payload[i], key[i % 4]) {
      MaskIs(payload, key, i);
    }
  }

  lemma FourParts(a: Bytes, b: Bytes, c: Bytes, d: Bytes)
    requires |a| == 1 && |c| == 4
    ensures
      var all, k := a + b + c + d, 1 + |b|;
      && |all| == k + 4 + |d| && all[0] == a[0] && all[1..k] == b && all[k..k + 4] == c
      && forall i :: 0 <= i < |d| ==> all[k + 4 + i] == d[i]
  {
  }

  /** A server's frame: the final bit with the opcode, the length without the mask bit, the payload. */
  lemma ServerFrameBytes(f: ServerFrame)
    requires Sendable(f)
    ensures
      var k := match f.form case Short => 2 case Medium => 4 case Long => 10;
      var bytes := EncodeFrame(f);
      && |bytes| == k + |f.payload|
      && bytes[0] == f.opcode + (if f.fin then 128 else 0)
      && IsLength(bytes[1..k], 0, |f.payload|)
      && bytes[k..] == f.payload
  {
    LengthIs(f.form, 0, |f.payload|);
    hide Length, IsLength;
    var k := 1 + |Length(f.form, 0, |f.payload|)|;
    assert EncodeFrame(f)[1..k] == Length(f.form, 0, |f.payload|);
  }

  /** What becomes of one frame that fits: pings (9) are answered and pongs (10) are not, a close (8)
      ends it; a text (1) or binary frame (2) begins a message and a continuation (0) goes on with
      one; any other opcode is refused. */
  lemma FrameHandled(f: ServerFrame, tail: Bytes, message: Bytes, expecting: bool, cap: nat)
    requires Sendable(f) && |f.payload| + |message| <= cap
    ensures
      var o := Receive(EncodeFrame(f) + tail, message, expecting, cap);
      if f.opcode == 9 then
        var later := Receive(tail, message, expecting, cap);
        o == Outcome(later.result, later.rest, [f.payload] + later.pongs)
      else if f.opcode == 10 then o == Receive(tail, message, expecting, cap)
      else if f.opcode == 8 then o == Outcome(ClosedByServer, tail, [])
      else if f.opcode > 2 then o == Outcome(Failed(UnsupportedOpcode(f.opcode)), tail, [])
      else if expecting && f.opcode != 0 then o == Outcome(Failed(Interleaved), tail, [])
      else if !expecting && f.opcode == 0 then o == Outcome(Failed(UnexpectedContinuation), tail, [])
      else if f.fin then o == Outcome(Message(message + f.payload), tail, [])
      else o == Receive(tail, message + f.payload, true, cap)
  {
    hide EncodeFrame, Receive;
    FirstFrame(f, tail, message, expecting, cap);
  }

  /** A stream that ends inside a frame which fits gives nothing. */
  lemma CutFrame(f: ServerFrame, k: nat, message: Bytes, expecting: bool, cap: nat)
    requires Sendable(f) && |f.payload| + |message| <= cap && k < |EncodeFrame(f)|
    ensures
      var o := Receive(EncodeFrame(f)[..k], message, expecting, cap);
      o.result == EndOfStream && o.pongs == []
  {
    var bytes := EncodeFrame(f);
    ServerFrameBytes(f);
    CutHead(f, k);
    hide EncodeFrame, Receive, ReadHead;
    Unfold(bytes[..k], message, expecting, cap);
  }

  lemma CutHead(f: ServerFrame, k: nat)
    requires Sendable(f) && k < |EncodeFrame(f)|
    ensures
      var h := ReadHead(EncodeFrame(f)[..k]);
      h.None? || (h.value.length == |f.payload| && |h.value.rest| < |f.payload|)
  {
    var first := (if f.fin then 128 else 0) + f.opcode;
    var head := [first] + Length(f.form, 0, |f.payload|);
    var bytes := EncodeFrame(f);
    LengthIs(f.form, 0, |f.payload|);
    assert bytes == head + f.payload;
    if k >= |head| {
      HeadForms(first, f.form, 0, |f.payload|, f.payload[..k - |head|]);
      assert bytes[..k] == head + f.payload[..k - |head|];
    } else if k >= 2 {
      assert bytes[..k][1] == bytes[1] == Length(f.form, 0, |f.payload|)[0];
    }
  }
}
