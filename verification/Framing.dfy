/**
 * Length-prefixed frames: the encoder, the strict decoder, the decoder of a
 * single message, and the tolerant splitter.
 */
module Framing {
  import opened Messages

  type Byte = b: int | 0 <= b < 256

  const MAX_FRAME_SIZE_BYTES := 262_144

  // The payload of a frame that the decoders accept.
  type Frame = f: seq<Byte> | |f| <= MAX_FRAME_SIZE_BYTES
  const MAX_RECEIVE_BUFFER_BYTES := 2 * MAX_FRAME_SIZE_BYTES

  // -------------------------------------------------------- specification

  // The big-endian number of four bytes.
  function Uint32(b0: int, b1: int, b2: int, b3: int): int {
    ((b0 * 256 + b1) * 256 + b2) * 256 + b3
  }

  function Size(b: seq<Byte>): (n: nat)
    requires |b| >= 4
  {
    Uint32(b[0], b[1], b[2], b[3])
  }

  function Header(n: nat): (h: seq<Byte>)
    requires n < 0x1_0000_0000
    ensures |h| == 4
  {
    [n / 0x100_0000, n / 0x1_0000 % 256, n / 256 % 256, n % 256]
  }

  lemma SizeOfHeader(n: nat, rest: seq<Byte>)
    requires n < 0x1_0000_0000
    ensures Size(Header(n) + rest) == n
  {
    var a := n / 256;
    var b := a / 256;
    var c := b / 256;
    assert n / 0x1_0000 == b && n / 0x100_0000 == c && c < 256;
    var bytes := Header(n) + rest;
    assert bytes[0] == c && bytes[1] == b % 256 && bytes[2] == a % 256 && bytes[3] == n % 256;
    assert Uint32(c, b % 256, a % 256, n % 256) == n;
  }

  lemma HeaderOfSize(b: seq<Byte>)
    requires |b| >= 4
    ensures Size(b) < 0x1_0000_0000 && Header(Size(b)) == b[..4]
  {
    var b0: int, b1: int, b2: int, b3: int := b[0], b[1], b[2], b[3];
    var x := b0 * 256 + b1;
    var y := x * 256 + b2;
    assert Size(b) == y * 256 + b3;
    assert Size(b) / 256 == y && y / 256 == x;
    assert Size(b) / 0x1_0000 == x;
    assert Size(b) / 0x100_0000 == b0;
  }

  function Framed(payload: Frame): seq<Byte> {
    Header(|payload|) + payload
  }

  // The frames at the front of a buffer, what is left after them, and whether
  // what is left starts with a header that announces too large a frame.
  datatype Parsed = Parsed(frames: seq<Frame>, rest: seq<Byte>, tooLarge: bool)

  function Parse(b: seq<Byte>): Parsed
    decreases |b|
  {
    if |b| < 4 then Parsed([], b, false)
    else if Size(b) > MAX_FRAME_SIZE_BYTES then Parsed([], b, true)
    else if |b| < 4 + Size(b) then Parsed([], b, false)
    else
      var tail := Parse(b[4 + Size(b)..]);
      Parsed([b[4..4 + Size(b)]] + tail.frames, tail.rest, tail.tooLarge)
  }

  // A whole frame at the front of a buffer.
  predicate WholeFrame(b: seq<Byte>) {
    |b| >= 4 && Size(b) <= MAX_FRAME_SIZE_BYTES && |b| >= 4 + Size(b)
  }

  lemma ParseWhole(b: seq<Byte>)
    requires WholeFrame(b)
    ensures var q := Parse(b[4 + Size(b)..]);
            Parse(b) == Parsed([b[4..4 + Size(b)]] + q.frames, q.rest, q.tooLarge)
  {
  }

  lemma ParseStop(b: seq<Byte>)
    requires !WholeFrame(b)
    ensures Parse(b) == Parsed([], b, |b| >= 4 && Size(b) > MAX_FRAME_SIZE_BYTES)
  {
  }

  lemma Append<T>(xs: seq<T>, x: T, ys: seq<T>)
    ensures xs + ([x] + ys) == (xs + [x]) + ys
  {
  }

  function Concat(parts: seq<seq<Byte>>): seq<Byte> {
    if parts == [] then [] else Concat(parts[..|parts| - 1]) + parts[|parts| - 1]
  }

  function Reframed(frames: seq<Frame>): seq<Byte> {
    if frames == [] then [] else Framed(frames[0]) + Reframed(frames[1..])
  }

  // ---------------------------------------------------------- round trips

  lemma ReframedCons(f: Frame, frames: seq<Frame>)
    ensures Reframed([f] + frames) == Framed(f) + Reframed(frames)
  {
    assert ([f] + frames)[1..] == frames;
  }

  // The first frame of a buffer, framed again, is the start of that buffer.
  lemma FirstFrame(b: seq<Byte>)
    requires WholeFrame(b)
    ensures Framed(b[4..4 + Size(b)]) == b[..4 + Size(b)]
  {
    HeaderOfSize(b);
  }

  lemma Regroup(x: seq<Byte>, y: seq<Byte>, z: seq<Byte>)
    ensures x + y + z == x + (y + z)
  {
  }

  // Frames and rest are the whole buffer, cut up: nothing is lost or made up.
  lemma {:induction false} ParseThenReframe(b: seq<Byte>)
    ensures Reframed(Parse(b).frames) + Parse(b).rest == b
    decreases |b|
  {
    hide Uint32, Header, Framed, Reframed, Parse;
    if WholeFrame(b) {
      var n := 4 + Size(b);
      var p := Parse(b[n..]);
      ParseWhole(b);
      ParseThenReframe(b[n..]);
      FirstFrame(b);
      ReframedCons(b[4..n], p.frames);
      Regroup(b[..n], Reframed(p.frames), p.rest);
    } else {
      ParseStop(b);
      ReframedNone();
      assert [] + b == b;
    }
  }

  lemma ReframedNone()
    ensures Reframed([]) == []
  {
  }

  lemma ParseFramed(payload: Frame, rest: seq<Byte>)
    ensures var p := Parse(rest);
            Parse(Framed(payload) + rest) == Parsed([payload] + p.frames, p.rest, p.tooLarge)
  {
    hide Uint32;
    var b := Framed(payload) + rest;
    assert b == Header(|payload|) + (payload + rest);
    SizeOfHeader(|payload|, payload + rest);
    assert b[4..4 + |payload|] == payload && b[4 + |payload|..] == rest;
  }

  // Any payloads, framed one after another and followed by a partial frame,
  // come back, with the partial frame left over.
  lemma {:induction false} ReframeThenParse(frames: seq<Frame>, partial: seq<Byte>)
    requires Parse(partial).frames == []
    ensures Parse(Reframed(frames) + partial) == Parsed(frames, partial, Parse(partial).tooLarge)
    decreases |frames|
  {
    hide Uint32, Header, Framed, Reframed, Parse;
    if frames == [] {
      ReframedNone();
      assert [] + partial == partial;
      ParseOfNoFrames(partial);
    } else {
      var first, others := frames[0], frames[1..];
      assert frames == [first] + others;
      ReframeThenParse(others, partial);
      ParseFramed(first, Reframed(others) + partial);
      ReframedCons(first, others);
      Regroup(Framed(first), Reframed(others), partial);
    }
  }

  lemma ParseOfNoFrames(b: seq<Byte>)
    requires Parse(b).frames == []
    ensures Parse(b) == Parsed([], b, Parse(b).tooLarge)
  {
  }

  // Bytes that arrive later only extend what has been parsed.
  lemma {:induction false} ParseMore(a: seq<Byte>, b: seq<Byte>)
    ensures var p := Parse(a);
            if p.tooLarge then Parse(a + b) == Parsed(p.frames, p.rest + b, true)
            else
              var q := Parse(p.rest + b);
              Parse(a + b) == Parsed(p.frames + q.frames, q.rest, q.tooLarge)
    decreases |a|
  {
    hide Uint32, Header, Parse;
    assert |a| >= 4 ==> Size(a + b) == Size(a);
    if WholeFrame(a) {
      var n := 4 + Size(a);
      ParseWhole(a);
      ParseWhole(a + b);
      ParseMore(a[n..], b);
      assert (a + b)[n..] == a[n..] + b && (a + b)[4..n] == a[4..n];
      var p, q := Parse(a[n..]), Parse(Parse(a[n..]).rest + b);
      assert [a[4..n]] + (p.frames + q.frames) == ([a[4..n]] + p.frames) + q.frames;
    } else {
      ParseStop(a);
      assert [] + Parse(a + b).frames == Parse(a + b).frames;
      if Parse(a).tooLarge {
        ParseStop(a + b);
      }
    }
  }

  // What the first four bytes of a buffer say: a number, most significant byte
  // first, that is too large, or not covered yet, or the length of the first frame.
  lemma FirstHeader(b: seq<Byte>)
    requires |b| >= 4
    ensures var n := b[0] as int * 0x100_0000 + b[1] as int * 0x1_0000 + b[2] as int * 0x100 + b[3] as int;
            var p := Parse(b);
            && (p.frames == [] && p.tooLarge <==> n > 256 * 1024)
            && (p.frames == [] && !p.tooLarge <==> n <= 256 * 1024 && |b| < 4 + n)
            && (p.frames != [] ==> p.frames[0] == b[4..4 + n] && p.frames[1..] == Parse(b[4 + n..]).frames)
            && (p.frames == [] ==> p.rest == b)
  {
    if WholeFrame(b) {
      ParseWhole(b);
    } else {
      ParseStop(b);
    }
  }

  // What is left is never a whole frame.
  lemma {:induction false} RestIsShort(b: seq<Byte>)
    ensures Parse(Parse(b).rest).frames == []
    ensures !Parse(b).tooLarge ==> |Parse(b).rest| <= MAX_FRAME_SIZE_BYTES + 3
    decreases |b|
  {
    hide Uint32, Header, Parse;
    if WholeFrame(b) {
      ParseWhole(b);
      RestIsShort(b[4 + Size(b)..]);
    } else {
      ParseStop(b);
    }
  }

  // -------------------------------------------------------------- encoder

  datatype Encoded = Encoded(bytes: array<Byte>) | FrameTooLarge

  method Encode(payload: seq<Byte>) returns (r: Encoded)
    ensures r.FrameTooLarge? <==> |payload| > 256 * 1024
    ensures r.Encoded? ==> fresh(r.bytes) && r.bytes[..] == Framed(payload)
    ensures r.Encoded? ==> r.bytes.Length == 4 + |payload| && r.bytes[4..] == payload
    ensures r.Encoded? ==>
      var b0: int, b1: int, b2: int, b3: int := r.bytes[0], r.bytes[1], r.bytes[2], r.bytes[3];
      |payload| == b0 * 0x100_0000 + b1 * 0x1_0000 + b2 * 0x100 + b3
  {
    if |payload| > MAX_FRAME_SIZE_BYTES {
      return FrameTooLarge;
    }
    var n := |payload|;
    var buffer := new Byte[4 + n](_ => 0);
    buffer[0], buffer[1], buffer[2], buffer[3] := n / 0x100_0000, n / 0x1_0000 % 256, n / 256 % 256, n % 256;
    for i := 0 to n
      invariant buffer[..4] == Header(n)
      invariant buffer[4..4 + i] == payload[..i]
    {
      buffer[4 + i] := payload[i];
    }
    assert buffer[..] == buffer[..4] + buffer[4..];
    SizeOfHeader(n, payload);
    SizeIs(buffer[..]);
    return Encoded(buffer);
  }

  // ------------------------------------------------------------- decoders

  datatype Decoded = Decoded(frames: seq<Frame>, remainder: seq<Byte>) | TooLarge

  method DecodeFrames(buffer: array<Byte>) returns (r: Decoded)
    ensures var p := Parse(buffer[..]);
            r == if p.tooLarge then TooLarge else Decoded(p.frames, p.rest)
  {
    hide Uint32, Parse;
    var frames: seq<Frame> := [];
    var offset := 0;
    assert buffer[0..] == buffer[..] && [] + Parse(buffer[..]).frames == Parse(buffer[..]).frames;
    while buffer.Length - offset >= 4
      invariant 0 <= offset <= buffer.Length
      invariant var p, q := Parse(buffer[..]), Parse(buffer[offset..]);
                p == Parsed(frames + q.frames, q.rest, q.tooLarge)
      decreases buffer.Length - offset
    {
      ghost var here := buffer[offset..];
      var size := Uint32(buffer[offset], buffer[offset + 1], buffer[offset + 2], buffer[offset + 3]);
      assert size == Size(here);
      if size > MAX_FRAME_SIZE_BYTES {
        ParseStop(here);
        return TooLarge;
      }
      if buffer.Length - offset < size + 4 {
        break;
      }
      var start := offset + 4;
      var end := start + size;
      ParseWhole(here);
      assert here[4..4 + size] == buffer[start..end] && here[4 + size..] == buffer[end..];
      Append(frames, buffer[start..end], Parse(buffer[end..]).frames);
      frames := frames + [buffer[start..end]];
      offset := end;
    }
    ParseStop(buffer[offset..]);
    return Decoded(frames, buffer[offset..]);
  }

  // Messages are decoded from frames by a codec that may refuse a frame.
  type Codec<!T> = Frame -> Option<T>

  datatype Single<T> = Single(message: T) | Insufficient | Oversized | Incomplete | Malformed

  method Decode<T>(codec: Codec<T>, data: array<Byte>) returns (r: Single<T>)
    ensures var p := Parse(data[..]);
            && (r.Insufficient? <==> data.Length < 4)
            && (r.Incomplete? <==> data.Length >= 4 && p.frames == [] && !p.tooLarge)
            && (r.Oversized? <==> p.frames == [] && p.tooLarge)
            && (r.Single? <==> p.frames != [] && codec(p.frames[0]).Some?)
            && (r.Single? ==> Some(r.message) == codec(p.frames[0]))
  {
    if data.Length < 4 {
      return Insufficient;
    }
    var length := Uint32(data[0], data[1], data[2], data[3]);
    assert length == Size(data[..]);
    if length > MAX_FRAME_SIZE_BYTES {
      return Oversized;
    }
    if data.Length < 4 + length {
      return Incomplete;
    }
    assert data[..][4..4 + length] == data[4..4 + length];
    var decoded := codec(data[4..4 + length]);
    if decoded.None? {
      return Malformed;
    }
    return Single(decoded.value);
  }

  // The messages of the non-empty frames that the codec accepts, in order.
  function Readable<T>(codec: Codec<T>, frames: seq<Frame>): seq<T> {
    if frames == [] then []
    else
      var front := Readable(codec, frames[..|frames| - 1]);
      var f := frames[|frames| - 1];
      if f == [] || codec(f).None? then front else front + [codec(f).value]
  }

  lemma ReadableOne<T>(codec: Codec<T>, f: Frame)
    ensures Readable(codec, [f]) == if f == [] || codec(f).None? then [] else [codec(f).value]
  {
    assert [f] == [] + [f];
  }

  lemma {:induction false} ReadableSum<T>(codec: Codec<T>, a: seq<Frame>, b: seq<Frame>)
    ensures Readable(codec, a + b) == Readable(codec, a) + Readable(codec, b)
    decreases |b|
  {
    if b == [] {
      assert a + b == a;
    } else {
      assert (a + b)[..|a + b| - 1] == a + b[..|b| - 1];
      ReadableSum(codec, a, b[..|b| - 1]);
    }
  }

  // The tolerant splitter: where the strict decoder gives up at a header that is
  // too large, it skips the four header bytes and goes on from there.
  function Split<T>(codec: Codec<T>, b: seq<Byte>): (seq<T>, seq<Byte>)
    decreases |b|
  {
    if |b| < 4 then ([], b)
    else if Size(b) == 0 || Size(b) > MAX_FRAME_SIZE_BYTES then Split(codec, b[4..])
    else if 4 + Size(b) > |b| then ([], b)
    else
      var (messages, rest) := Split(codec, b[4 + Size(b)..]);
      (Readable(codec, [b[4..4 + Size(b)]]) + messages, rest)
  }

  method SplitMessages<T>(codec: Codec<T>, buffer: array<Byte>) returns (messages: seq<T>, remaining: seq<Byte>)
    ensures (messages, remaining) == Split(codec, buffer[..])
  {
    hide Uint32, Split, Size;
    var offset: nat := 0;
    messages := [];
    assert buffer[0..] == buffer[..] && messages + Split(codec, buffer[..]).0 == Split(codec, buffer[..]).0;
    while offset + 4 <= buffer.Length
      invariant offset <= buffer.Length
      invariant var (ms, rest) := Split(codec, buffer[offset..]);
                Split(codec, buffer[..]) == (messages + ms, rest)
      decreases buffer.Length - offset
    {
      ghost var here := buffer[offset..];
      var length := Uint32(buffer[offset], buffer[offset + 1], buffer[offset + 2], buffer[offset + 3]);
      SizeIs(here);
      assert here[4..] == buffer[offset + 4..];
      if length == 0 {
        SplitSkips(codec, here);
        offset := offset + 4;
        continue;
      }
      if length > MAX_FRAME_SIZE_BYTES {
        SplitSkips(codec, here);
        offset := offset + 4;
        continue;
      }
      if offset + 4 + length > buffer.Length {
        break;
      }
      var start, end := offset + 4, offset + 4 + length;
      var bytes := buffer[start..end];
      SliceOfTail(buffer[..], offset, 4, 4 + length);
      SplitTakes(codec, here);
      ghost var (ms, rest) := Split(codec, buffer[end..]);
      var decoded := codec(bytes);
      if decoded.Some? {
        assert messages + ([decoded.value] + ms) == (messages + [decoded.value]) + ms;
        messages := messages + [decoded.value];
      } else {
        assert messages + ([] + ms) == messages + ms;
      }
      offset := end;
    }
    SplitStops(codec, buffer[offset..]);
    assert messages + [] == messages;
    remaining := buffer[offset..];
  }

  lemma SizeIs(b: seq<Byte>)
    requires |b| >= 4
    ensures Size(b) == Uint32(b[0], b[1], b[2], b[3])
  {
  }

  lemma SplitSkips<T>(codec: Codec<T>, b: seq<Byte>)
    requires |b| >= 4 && (Size(b) == 0 || Size(b) > MAX_FRAME_SIZE_BYTES)
    ensures Split(codec, b) == Split(codec, b[4..])
  {
  }

  lemma SplitStops<T>(codec: Codec<T>, b: seq<Byte>)
    requires |b| < 4 || (0 < Size(b) <= MAX_FRAME_SIZE_BYTES && |b| < 4 + Size(b))
    ensures Split(codec, b) == ([], b)
  {
  }

  lemma SplitTakes<T>(codec: Codec<T>, b: seq<Byte>)
    requires |b| >= 4 && 0 < Size(b) <= MAX_FRAME_SIZE_BYTES && |b| >= 4 + Size(b)
    ensures var f, (messages, rest) := b[4..4 + Size(b)], Split(codec, b[4 + Size(b)..]);
            Split(codec, b) == (if codec(f).Some? then [codec(f).value] + messages else [] + messages, rest)
  {
    ReadableOne(codec, b[4..4 + Size(b)]);
  }

  lemma SliceOfTail(b: seq<Byte>, i: nat, j: nat, k: nat)
    requires j <= k && i + k <= |b|
    ensures b[i..][j..k] == b[i + j..i + k] && b[i..][k..] == b[i + k..]
  {
  }

  // Whenever the strict decoder succeeds, the splitter returns the readable
  // non-empty frames in order and leaves the same bytes over.
  lemma {:induction false} SplitIsParse<T>(codec: Codec<T>, b: seq<Byte>)
    requires !Parse(b).tooLarge
    ensures Split(codec, b) == (Readable(codec, Parse(b).frames), Parse(b).rest)
    decreases |b|
  {
    hide Uint32;
    if |b| >= 4 && |b| >= 4 + Size(b) {
      var n := 4 + Size(b);
      var f, p := b[4..n], Parse(b[n..]);
      SplitIsParse(codec, b[n..]);
      ReadableSum(codec, [f], p.frames);
      assert [] + Readable(codec, p.frames) == Readable(codec, p.frames);
      ReadableOne(codec, f);
    }
  }

  lemma SplitOne<T>(codec: Codec<T>, b: seq<Byte>)
    requires WholeFrame(b)
    ensures var n := 4 + Size(b);
            var (messages, left) := Split(codec, b[n..]);
            Split(codec, b) == (Readable(codec, [b[4..n]]) + messages, left)
  {
    ReadableOne(codec, b[4..4 + Size(b)]);
    hide Uint32, Readable;
    var (messages, left) := Split(codec, b[4 + Size(b)..]);
    assert [] + messages == messages;
  }

  // Where the strict decoder gives up, the splitter skips the four bytes of the
  // header and goes on: it still returns what came before, and whatever it finds
  // from there on.
  lemma {:induction false} SplitResumes<T>(codec: Codec<T>, b: seq<Byte>)
    requires Parse(b).tooLarge
    ensures var rest := Parse(b).rest;
            && |rest| >= 4
            && var (messages, left) := Split(codec, rest[4..]);
               Split(codec, b) == (Readable(codec, Parse(b).frames) + messages, left)
    decreases |b|
  {
    hide Uint32, Size, Parse, Split, Readable;
    if WholeFrame(b) {
      ParseWhole(b);
      var n := 4 + Size(b);
      var f, p := b[4..n], Parse(b[n..]);
      SplitResumes(codec, b[n..]);
      SplitOne(codec, b);
      ReadableSum(codec, [f], p.frames);
      var (messages, left) := Split(codec, p.rest[4..]);
      assert Readable(codec, [f]) + (Readable(codec, p.frames) + messages)
          == Readable(codec, [f]) + Readable(codec, p.frames) + messages;
    } else {
      ParseStop(b);
      SplitSkips(codec, b);
      NothingReadable(codec);
      var (messages, left) := Split(codec, b[4..]);
      assert [] + messages == messages;
    }
  }

  lemma NothingReadable<T>(codec: Codec<T>)
    ensures Readable(codec, []) == []
  {
  }
}
