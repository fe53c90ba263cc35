/** Length-prefixed frames over a byte stream that arrives as WebSocket messages.

    The codec as functions on byte sequences with its round trips, then the stream reader that
    feeds it: binary messages carry the stream, all others are skipped (section 5.6 of RFC 6455). */
module Framing {
  import opened Prelude

  newtype byte = b: int | 0 <= b < 256

  type Bytes = seq<byte>

  const MAX_WS_FRAME_BYTES := 64 * 1024 * 1024
  const MAX_JSON_FRAME_BYTES := 1024 * 1024

  // ---------------------------------------------------------------- big-endian numbers

  function Power256(n: nat): (p: nat)
    ensures p > 0
  {
    if n == 0 then 1 else 256 * Power256(n - 1)
  }

  /** The low `n` bytes of `v`, most significant first. */
  function BigEndian(v: nat, n: nat): (bs: Bytes)
    ensures |bs| == n
  {
    if n == 0 then [] else BigEndian(v / 256, n - 1) + [(v % 256) as byte]
  }

  function Number(bs: Bytes): nat {
    if bs == [] then 0 else 256 * Number(bs[..|bs| - 1]) + bs[|bs| - 1] as nat
  }

  lemma {:induction false} NumberRoundTrip(v: nat, n: nat)
    requires v < Power256(n)
    ensures Number(BigEndian(v, n)) == v
  {
    if n > 0 {
      NumberRoundTrip(v / 256, n - 1);
      var bs := BigEndian(v, n);
      assert bs[..|bs| - 1] == BigEndian(v / 256, n - 1);
    }
  }

  lemma PowersNeeded()
    ensures Power256(4) == 0x1_0000_0000 && Power256(8) == 0x1_0000_0000_0000_0000
  {
    assert Power256(1) == 256 * Power256(0);
    assert Power256(2) == 256 * Power256(1);
    assert Power256(3) == 256 * Power256(2);
    assert Power256(4) == 256 * Power256(3);
    assert Power256(5) == 256 * Power256(4);
    assert Power256(6) == 256 * Power256(5);
    assert Power256(7) == 256 * Power256(6);
  }

  // ---------------------------------------------------------------- the codec

  datatype Frame = Frame(kind: int, payload: Bytes)

  datatype ReadResult<T> = Got(value: T, rest: Bytes) | Short | Oversized

  /** The kind is written as one byte, the length as eight. */
  function EncodeFrame(f: Frame): Bytes {
    [(f.kind % 256) as byte] + BigEndian(|f.payload|, 8) + f.payload
  }

  function DecodeFrame(bs: Bytes): ReadResult<Frame> {
    if |bs| < 9 then Short else
    var length := Number(bs[1..9]);
    if length > MAX_WS_FRAME_BYTES then Oversized
    else if |bs| < 9 + length then Short
    else Got(Frame(bs[0] as int, bs[9..9 + length]), bs[9 + length..])
  }

  /** A JSON document is refused by the writer when it is too large; one within the limit is
      prefixed by its length in four bytes. */
  function EncodeJson(data: Bytes): Option<Bytes> {
    if |data| > MAX_JSON_FRAME_BYTES then None else Some(BigEndian(|data|, 4) + data)
  }

  function DecodeJson(bs: Bytes): ReadResult<Bytes> {
    if |bs| < 4 then Short else
    var length := Number(bs[..4]);
    if length > MAX_JSON_FRAME_BYTES then Oversized
    else if |bs| < 4 + length then Short
    else Got(bs[4..4 + length], bs[4 + length..])
  }

  /** What can cross the codec unchanged: a kind of one byte and a payload within the reader's limit.
      (A Go slice is always shorter than eight bytes of length can say.) */
  predicate Sendable(f: Frame) {
    0 <= f.kind < 256 && |f.payload| <= MAX_WS_FRAME_BYTES
  }

  lemma FrameLayout(f: Frame, rest: Bytes)
    requires |f.payload| < Power256(8)
    ensures var bs := EncodeFrame(f) + rest;
            && |EncodeFrame(f)| == 9 + |f.payload|
            && bs[0] as int == f.kind % 256 && Number(bs[1..9]) == |f.payload|
            && bs[9..9 + |f.payload|] == f.payload && bs[9 + |f.payload|..] == rest
  {
    var bs := EncodeFrame(f) + rest;
    NumberRoundTrip(|f.payload|, 8);
    assert bs[1..9] == BigEndian(|f.payload|, 8);
    assert bs[9..9 + |f.payload|] == f.payload;
    assert bs[9 + |f.payload|..] == rest;
  }

  /** Decoding recovers the frame and leaves exactly what followed it, if and only if the frame
      was sendable: a larger payload is written but refused by the reader. */
  lemma FrameRoundTrip(f: Frame, rest: Bytes)
    requires |f.payload| < Power256(8)
    ensures DecodeFrame(EncodeFrame(f) + rest) == Got(f, rest) <==> Sendable(f)
    ensures |f.payload| > MAX_WS_FRAME_BYTES ==> DecodeFrame(EncodeFrame(f) + rest) == Oversized
  {
    FrameLayout(f, rest);
  }

  /** The JSON writer refuses what the reader would: everything written is read back. */
  lemma JsonRoundTrip(data: Bytes, rest: Bytes)
    requires EncodeJson(data).Some?
    ensures DecodeJson(EncodeJson(data).value + rest) == Got(data, rest)
  {
    PowersNeeded();
    NumberRoundTrip(|data|, 4);
    var bs := EncodeJson(data).value + rest;
    assert bs[..4] == BigEndian(|data|, 4);
    assert bs[4..4 + |data|] == data;
    assert bs[4 + |data|..] == rest;
  }

  /** A frame cut short is never taken for a frame: every proper prefix asks for more. */
  lemma PrefixIsShort(f: Frame, n: nat)
    requires Sendable(f) && n < |EncodeFrame(f)|
    ensures DecodeFrame(EncodeFrame(f)[..n]) == Short
  {
    PowersNeeded();
    FrameLayout(f, []);
    var bs := EncodeFrame(f);
    assert bs + [] == bs;
    if n >= 9 { assert bs[..n][1..9] == bs[1..9]; }
  }

  /** What goes over one stream: JSON documents and WebSocket frames, in an order both sides know. */
  datatype Unit = Document(data: Bytes) | Message(frame: Frame)

  datatype Codec = Json | WS

  function CodecOf(u: Unit): Codec { if u.Document? then Json else WS }

  /** The writer accepts it and the reader's limits allow it. */
  predicate Transmittable(u: Unit) {
    match u
    case Document(data) => EncodeJson(data).Some?
    case Message(frame) => Sendable(frame)
  }

  function EncodeUnit(u: Unit): Bytes
    requires Transmittable(u)
  {
    match u
    case Document(data) => EncodeJson(data).value
    case Message(frame) => EncodeFrame(frame)
  }

  function DecodeUnit(codec: Codec, bs: Bytes): ReadResult<Unit> {
    match codec
    case Json =>
      (match DecodeJson(bs)
       case Got(data, rest) => Got(Document(data), rest)
       case Short => Short
       case Oversized => Oversized)
    case WS =>
      (match DecodeFrame(bs)
       case Got(frame, rest) => Got(Message(frame), rest)
       case Short => Short
       case Oversized => Oversized)
  }

  function EncodeAll(units: seq<Unit>): Bytes
    requires forall u <- units :: Transmittable(u)
  {
    if units == [] then [] else EncodeUnit(units[0]) + EncodeAll(units[1..])
  }

  /** Reading with the codec of the first unit recovers it and leaves exactly the encoding of the others. */
  lemma FirstUnit(units: seq<Unit>, rest: Bytes)
    requires units != [] && forall u <- units :: Transmittable(u)
    ensures DecodeUnit(CodecOf(units[0]), EncodeAll(units) + rest) == Got(units[0], EncodeAll(units[1..]) + rest)
  {
    var first, others := units[0], EncodeAll(units[1..]) + rest;
    PowersNeeded();
    assert EncodeAll(units) + rest == EncodeUnit(first) + others;
    match first
    case Document(data) => JsonRoundTrip(data, others);
    case Message(frame) => FrameRoundTrip(frame, others);
  }

  lemma OneUnitOn(units: seq<Unit>, i: nat)
    requires i < |units|
    ensures units[i..][0] == units[i] && units[i..][1..] == units[i + 1..]
    ensures units[..i] + [units[i]] == units[..i + 1]
    ensures forall u :: u in units[i + 1..] ==> u in units[i..]
  {
    assert units[i..] == [units[i]] + units[i + 1..];
  }

  lemma NoUnits(rest: Bytes)
    ensures EncodeAll([]) + rest == rest
  {
  }

  // ---------------------------------------------------------------- the byte stream

  datatype Packet = Binary(payload: Bytes) | Text(payload: Bytes)

  /** The stream that a sequence of messages carries. */
  function StreamOf(messages: seq<Packet>): Bytes {
    if messages == [] then []
    else (if messages[0].Binary? then messages[0].payload else []) + StreamOf(messages[1..])
  }

  datatype ReadError = NoError | EndOfStream | UnexpectedEnd | TooLarge

  /** The connection as an `io.Reader`. `incoming` are the messages still to come before the peer
      closes; `reader` is what is left of the current binary message. */
  class WebSocketNetConn {
    var incoming: seq<Packet>
    var reader: Option<Bytes>

    /** What a reader of this connection will still see. */
    function Pending(): Bytes reads this {
      (if reader.Some? then reader.value else []) + StreamOf(incoming)
    }

    constructor (messages: seq<Packet>)
      ensures Pending() == StreamOf(messages)
    {
      incoming := messages;
      reader := None;
    }

    /** The message reader hands out any non-empty chunk that fits, and may report the end of its
        message with the last chunk or only afterwards. */
    method ReadMessage(room: nat) returns (data: Bytes, end: bool)
      requires reader.Some?
      modifies this`reader
      ensures reader.Some? && old(reader.value) == data + reader.value && |data| <= room
      ensures end ==> reader.value == []
      ensures room > 0 && !end ==> data != []
    {
      var left := reader.value;
      if left == [] {
        return [], true;
      }
      if room == 0 {
        return [], false;
      }
      var n :| 1 <= n <= room && n <= |left|;
      data := left[..n];
      reader := Some(left[n..]);
      end :| end ==> n == |left|;
    }

    /** Opens the next binary message, skipping all others; false when the peer has closed. */
    method OpenNext() returns (found: bool)
      requires reader.None?
      modifies this
      ensures Pending() == old(Pending()) && |incoming| <= old(|incoming|)
      ensures found <==> reader.Some?
      ensures found ==> |incoming| < old(|incoming|)
      ensures !found ==> Pending() == []
    {
      while incoming != []
        invariant reader.None? && Pending() == old(Pending()) && |incoming| <= old(|incoming|)
        decreases |incoming|
      {
        var message := incoming[0];
        incoming := incoming[1..];
        if message.Binary? {
          reader := Some(message.payload);
          return true;
        }
      }
      return false;
    }

    /** One Read: a chunk of the stream, non-empty when there is room for one, or the end when and
        only when nothing is pending. Text and empty messages leave no trace. */
    method Read(room: nat) returns (data: Bytes, error: ReadError)
      modifies this
      ensures old(Pending()) == data + Pending() && |data| <= room
      ensures error == EndOfStream || error == NoError
      ensures error == EndOfStream ==> data == [] && old(Pending()) == []
      ensures error == NoError && room > 0 ==> data != []
      decreases |incoming| + (if reader.Some? then 1 else 0)
    {
      if reader.None? {
        var found := OpenNext();
        if !found {
          return [], EndOfStream;
        }
      }
      var end;
      data, end := ReadMessage(room);
      if end {
        reader := None;
        if |data| > 0 {
          return data, NoError;
        }
        data, error := Read(room);
        return data, error;
      }
      return data, NoError;
    }

    /** io.ReadFull: exactly `n` bytes of the stream and not one more, or the stream was too short. */
    method ReadFull(n: nat) returns (data: Bytes, error: ReadError)
      modifies this
      ensures old(Pending()) == data + Pending()
      ensures error == NoError <==> n <= |old(Pending())|
      ensures error == NoError ==> |data| == n
      ensures error == EndOfStream <==> n > 0 && old(Pending()) == []
      ensures error == UnexpectedEnd <==> 0 < |old(Pending())| < n
    {
      ghost var stream := Pending();
      data := [];
      error := NoError;
      while |data| < n && error == NoError
        invariant stream == data + Pending()
        invariant |data| <= n
        invariant error == NoError || (error == EndOfStream && Pending() == [] && |data| < n)
        decreases n - |data|, error == NoError
      {
        var chunk;
        ghost var left := Pending();
        chunk, error := Read(n - |data|);
        assert data + left == data + chunk + Pending();
        data := data + chunk;
      }
      assert error == EndOfStream ==> stream == data;
      if error == EndOfStream && data != [] {
        error := UnexpectedEnd;
      }
    }

    /** ReadWSFrame: the decoder of the stream, consuming exactly the frame it returns. */
    method ReadWSFrame() returns (frame: Option<Frame>, error: ReadError)
      modifies this
      ensures frame.Some? <==> DecodeFrame(old(Pending())).Got?
      ensures frame.Some? ==> error == NoError && DecodeFrame(old(Pending())) == Got(frame.value, Pending())
      ensures error == TooLarge <==> DecodeFrame(old(Pending())) == Oversized
      ensures error == NoError <==> frame.Some?
    {
      var stream := Pending();
      var header;
      header, error := ReadFull(9);
      if error != NoError {
        return None, error;
      }
      assert stream[..9] == header;
      assert header[1..] == stream[1..9];
      var length := Number(header[1..]);
      if length > MAX_WS_FRAME_BYTES {
        return None, TooLarge;
      }
      assert Pending() == stream[9..];
      var payload;
      payload, error := ReadFull(length);
      if error != NoError {
        return None, error;
      }
      assert stream[9..9 + length] == payload;
      assert stream[9 + length..] == Pending();
      return Some(Frame(header[0] as int, payload)), NoError;
    }

    /** ReadJSON up to the parsing of the document. */
    method ReadJson() returns (document: Option<Bytes>, error: ReadError)
      modifies this
      ensures document.Some? <==> DecodeJson(old(Pending())).Got?
      ensures document.Some? ==> error == NoError && DecodeJson(old(Pending())) == Got(document.value, Pending())
      ensures error == TooLarge <==> DecodeJson(old(Pending())) == Oversized
      ensures error == NoError <==> document.Some?
    {
      var stream := Pending();
      var prefix;
      prefix, error := ReadFull(4);
      if error != NoError {
        return None, error;
      }
      assert stream[..4] == prefix;
      var size := Number(prefix);
      if size > MAX_JSON_FRAME_BYTES {
        return None, TooLarge;
      }
      assert Pending() == stream[4..];
      var data;
      data, error := ReadFull(size);
      if error != NoError {
        return None, error;
      }
      assert stream[4..4 + size] == data;
      assert stream[4 + size..] == Pending();
      return Some(data), NoError;
    }

    method ReadUnit(codec: Codec) returns (u: Option<Unit>)
      modifies this
      ensures u.Some? <==> DecodeUnit(codec, old(Pending())).Got?
      ensures u.Some? ==> DecodeUnit(codec, old(Pending())) == Got(u.value, Pending())
    {
      match codec
      case Json =>
        var data, _ := ReadJson();
        return if data.Some? then Some(Document(data.value)) else None;
      case WS =>
        var frame, _ := ReadWSFrame();
        return if frame.Some? then Some(Message(frame.value)) else None;
    }

    method ReadFirst(ghost units: seq<Unit>, codec: Codec, ghost rest: Bytes) returns (u: Option<Unit>)
      requires units != [] && (forall u <- units :: Transmittable(u)) && codec == CodecOf(units[0])
      requires Pending() == EncodeAll(units) + rest
      modifies this
      ensures u == Some(units[0]) && Pending() == EncodeAll(units[1..]) + rest
    {
      FirstUnit(units, rest);
      u := ReadUnit(codec);
    }

    /** Whatever the packets that carry them, however they are cut, interleaved with text and read in
        chunks: reading with the codecs in the order sent recovers the documents and frames sent, and
        leaves what followed them. */
    method ReadUnits(ghost sent: seq<Unit>, codecs: seq<Codec>, ghost rest: Bytes) returns (units: seq<Unit>)
      requires |codecs| == |sent| && forall i :: 0 <= i < |sent| ==> codecs[i] == CodecOf(sent[i])
      requires forall u <- sent :: Transmittable(u)
      requires Pending() == EncodeAll(sent) + rest
      modifies this
      ensures units == sent && Pending() == rest
    {
      units := [];
      ghost var left := sent;
      for i := 0 to |codecs|
        invariant left == sent[i..] && units == sent[..i]
        invariant (forall u <- left :: Transmittable(u)) && Pending() == EncodeAll(left) + rest
      {
        OneUnitOn(sent, i);
        var u := ReadFirst(left, codecs[i], rest);
        units := units + [u.value];
        left := left[1..];
      }
      NoUnits(rest);
    }
  }

  /** The writing side: each Write becomes one binary message, so the peer's stream grows by
      exactly what was written, whatever other messages lie in between. */
  lemma {:induction false} WriteAppends(messages: seq<Packet>, data: Bytes)
    ensures StreamOf(messages + [Binary(data)]) == StreamOf(messages) + data
  {
    if messages == [] {
      assert [Binary(data)][1..] == [];
      assert data + [] == data;
    } else {
      WriteAppends(messages[1..], data);
      assert (messages + [Binary(data)])[1..] == messages[1..] + [Binary(data)];
    }
  }

  /** The stream does not depend on how the same bytes were cut into messages. */
  lemma {:induction false} ChunkingIsInvisible(chunks: seq<Bytes>)
    ensures StreamOf(seq(|chunks|, i requires 0 <= i < |chunks| => Binary(chunks[i]))) == Flatten(chunks)
  {
    if chunks != [] {
      ChunkingIsInvisible(chunks[1..]);
      var ms := seq(|chunks|, i requires 0 <= i < |chunks| => Binary(chunks[i]));
      var rest := seq(|chunks[1..]|, i requires 0 <= i < |chunks[1..]| => Binary(chunks[1..][i]));
      assert ms[1..] == rest;
    }
  }

  function Flatten(chunks: seq<Bytes>): Bytes {
    if chunks == [] then [] else chunks[0] + Flatten(chunks[1..])
  }
}
