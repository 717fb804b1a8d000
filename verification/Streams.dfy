/**
 * The two drivers that read a stream chunk by chunk: the one of the network
 * module, which decodes all whole frames of the buffer before it handles any,
 * and the one of the node, which handles each frame as it cuts it off.
 *
 * `ok(k)` says whether the k-th frame offered to the handler is handled without
 * an error.
 */
module Streams {
  import opened Framing

  datatype Status = Open | Aborted | Broken

  // Frames offered to the handler so far, and the bytes kept for the next chunk.
  datatype Progress = Progress(offered: seq<Frame>, buffer: seq<Byte>, status: Status)

  const Fresh := Progress([], [], Open)

  // ------------------------------------------------------- network module

  // The frames offered before the loop over decoded frames breaks.
  function UntilFailure(frames: seq<Frame>, ok: nat -> bool, k: nat): seq<Frame> {
    if frames == [] then []
    else [frames[0]] + if ok(k) then UntilFailure(frames[1..], ok, k + 1) else []
  }

  function NetworkChunk(s: Progress, chunk: seq<Byte>, ok: nat -> bool): Progress {
    if !s.status.Open? then s
    else
      var buffer := s.buffer + chunk;
      if |buffer| > MAX_RECEIVE_BUFFER_BYTES then s.(status := Aborted)
      else
        var p := Parse(buffer);
        if p.tooLarge then s.(status := Broken)
        else Progress(s.offered + UntilFailure(p.frames, ok, |s.offered|), p.rest, Open)
  }

  function NetworkStream(chunks: seq<seq<Byte>>, ok: nat -> bool): Progress {
    if chunks == [] then Fresh
    else NetworkChunk(NetworkStream(chunks[..|chunks| - 1], ok), chunks[|chunks| - 1], ok)
  }

  // ----------------------------------------------------------------- node

  function NodeFrames(b: seq<Byte>, ok: nat -> bool, k: nat): (p: Progress)
    ensures !p.status.Aborted?
    decreases |b|
  {
    if |b| < 4 then Progress([], b, Open)
    else if Size(b) > MAX_FRAME_SIZE_BYTES then Progress([], b, Broken)
    else if |b| < 4 + Size(b) then Progress([], b, Open)
    else
      var frame, rest := b[4..4 + Size(b)], b[4 + Size(b)..];
      if !ok(k) then Progress([frame], rest, Open)
      else
        var tail := NodeFrames(rest, ok, k + 1);
        tail.(offered := [frame] + tail.offered)
  }

  function NodeChunk(s: Progress, chunk: seq<Byte>, ok: nat -> bool): Progress {
    if !s.status.Open? then s
    else
      var buffer := s.buffer + chunk;
      if |buffer| > MAX_RECEIVE_BUFFER_BYTES then s.(status := Aborted)
      else
        var p := NodeFrames(buffer, ok, |s.offered|);
        p.(offered := s.offered + p.offered)
  }

  function NodeStream(chunks: seq<seq<Byte>>, ok: nat -> bool): Progress {
    if chunks == [] then Fresh
    else NodeChunk(NodeStream(chunks[..|chunks| - 1], ok), chunks[|chunks| - 1], ok)
  }

  // -------------------------------------------------------------- methods

  // The network module's concat: no copy when one side is empty.
  method ConcatBuffers(a: array<Byte>, b: array<Byte>) returns (out: array<Byte>)
    ensures out[..] == a[..] + b[..]
  {
    if a.Length == 0 {
      return b;
    }
    if b.Length == 0 {
      return a;
    }
    out := new Byte[a.Length + b.Length](_ => 0);
    for i := 0 to a.Length
      invariant out[..i] == a[..i]
    {
      out[i] := a[i];
    }
    for j := 0 to b.Length
      invariant out[..a.Length + j] == a[..] + b[..j]
    {
      out[a.Length + j] := b[j];
    }
    assert out[..a.Length + b.Length] == out[..] && b[..b.Length] == b[..];
  }

  method OfferFrames(frames: seq<Frame>, ok: nat -> bool, k: nat) returns (offered: seq<Frame>)
    ensures offered == UntilFailure(frames, ok, k)
  {
    hide UntilFailure;
    offered := [];
    assert frames[0..] == frames && [] + UntilFailure(frames, ok, k) == UntilFailure(frames, ok, k);
    for i := 0 to |frames|
      invariant UntilFailure(frames, ok, k) == offered + UntilFailure(frames[i..], ok, k + i)
    {
      FailureStep(frames[i..], ok, k + i);
      assert frames[i..][1..] == frames[i + 1..];
      Append(offered, frames[i], UntilFailure(frames[i + 1..], ok, k + i + 1));
      offered := offered + [frames[i]];
      if !ok(k + i) {
        return;
      }
    }
    FailureStep(frames[|frames|..], ok, k + |frames|);
  }

  lemma FailureStep(frames: seq<Frame>, ok: nat -> bool, k: nat)
    ensures frames == [] ==> UntilFailure(frames, ok, k) == []
    ensures frames != [] && ok(k) ==> UntilFailure(frames, ok, k) == [frames[0]] + UntilFailure(frames[1..], ok, k + 1)
    ensures frames != [] && !ok(k) ==> UntilFailure(frames, ok, k) == [frames[0]]
  {
  }

  ghost function Contents(chunks: seq<array<Byte>>): (c: seq<seq<Byte>>)
    reads chunks
    ensures |c| == |chunks| && forall i :: 0 <= i < |chunks| ==> c[i] == chunks[i][..]
  {
    seq(|chunks|, i requires 0 <= i < |chunks| reads chunks => chunks[i][..])
  }

  // Once a stream is aborted or broken it stays as it is.
  lemma {:induction false} NetworkStays(chunks: seq<seq<Byte>>, i: nat, ok: nat -> bool)
    requires i <= |chunks| && !NetworkStream(chunks[..i], ok).status.Open?
    ensures NetworkStream(chunks, ok) == NetworkStream(chunks[..i], ok)
  {
    if i == |chunks| {
      assert chunks[..i] == chunks;
    } else {
      var front := chunks[..|chunks| - 1];
      assert front[..i] == chunks[..i];
      NetworkStays(front, i, ok);
    }
  }

  lemma {:induction false} NodeStays(chunks: seq<seq<Byte>>, i: nat, ok: nat -> bool)
    requires i <= |chunks| && !NodeStream(chunks[..i], ok).status.Open?
    ensures NodeStream(chunks, ok) == NodeStream(chunks[..i], ok)
  {
    if i == |chunks| {
      assert chunks[..i] == chunks;
    } else {
      var front := chunks[..|chunks| - 1];
      assert front[..i] == chunks[..i];
      NodeStays(front, i, ok);
    }
  }

  method HandleNetworkStream(chunks: seq<array<Byte>>, ok: nat -> bool) returns (s: Progress)
    ensures s == NetworkStream(Contents(chunks), ok)
  {
    ghost var cs := Contents(chunks);
    var buffer := new Byte[0];
    s := Fresh;
    for i := 0 to |chunks|
      invariant s == NetworkStream(cs[..i], ok) && s.status.Open? && buffer[..] == s.buffer
    {
      assert cs[..i + 1][..i] == cs[..i] && cs[i] == chunks[i][..];
      buffer := ConcatBuffers(buffer, chunks[i]);
      if buffer.Length > MAX_RECEIVE_BUFFER_BYTES {
        NetworkStays(cs, i + 1, ok);
        return s.(status := Aborted);
      }
      var decoded := DecodeFrames(buffer);
      if decoded.TooLarge? {
        NetworkStays(cs, i + 1, ok);
        return s.(status := Broken);
      }
      var handled := OfferFrames(decoded.frames, ok, |s.offered|);
      var rest := decoded.remainder;
      buffer := new Byte[|rest|](j requires 0 <= j < |rest| => rest[j]);
      s := Progress(s.offered + handled, rest, Open);
    }
    assert cs[..|chunks|] == cs;
  }

  method ProcessFrames(data: seq<Byte>, ok: nat -> bool, k: nat) returns (s: Progress)
    ensures s == NodeFrames(data, ok, k)
  {
    hide Uint32, Header, NodeFrames;
    var buffer := data;
    var offered: seq<Frame> := [];
    assert [] + NodeFrames(data, ok, k).offered == NodeFrames(data, ok, k).offered;
    while |buffer| >= 4
      invariant var p := NodeFrames(buffer, ok, k + |offered|);
                NodeFrames(data, ok, k) == p.(offered := offered + p.offered)
      decreases |buffer|
    {
      NodeStep(buffer, ok, k + |offered|);
      var size := Uint32(buffer[0], buffer[1], buffer[2], buffer[3]);
      assert size == Size(buffer);
      if size > MAX_FRAME_SIZE_BYTES {
        return Progress(offered, buffer, Broken);
      }
      if |buffer| < size + 4 {
        break;
      }
      var frame := buffer[4..4 + size];
      Append(offered, frame, NodeFrames(buffer[4 + size..], ok, k + |offered| + 1).offered);
      buffer := buffer[4 + size..];
      offered := offered + [frame];
      if !ok(k + |offered| - 1) {
        return Progress(offered, buffer, Open);
      }
    }
    NodeStep(buffer, ok, k + |offered|);
    return Progress(offered, buffer, Open);
  }

  lemma NodeStep(b: seq<Byte>, ok: nat -> bool, k: nat)
    ensures !WholeFrame(b) ==>
      NodeFrames(b, ok, k) == Progress([], b, if |b| >= 4 && Size(b) > MAX_FRAME_SIZE_BYTES then Broken else Open)
    ensures WholeFrame(b) ==>
      var frame, rest := b[4..4 + Size(b)], b[4 + Size(b)..];
      var tail := NodeFrames(rest, ok, k + 1);
      NodeFrames(b, ok, k) ==
        if ok(k) then tail.(offered := [frame] + tail.offered) else Progress([frame], rest, Open)
  {
    hide Uint32;
  }

  method HandleNodeStream(chunks: seq<seq<Byte>>, ok: nat -> bool) returns (s: Progress)
    ensures s == NodeStream(chunks, ok)
  {
    s := Fresh;
    for i := 0 to |chunks|
      invariant s == NodeStream(chunks[..i], ok) && s.status.Open?
    {
      assert chunks[..i + 1][..i] == chunks[..i];
      var buffer := s.buffer + chunks[i];
      if |buffer| > MAX_RECEIVE_BUFFER_BYTES {
        NodeStays(chunks, i + 1, ok);
        return s.(status := Aborted);
      }
      var p := ProcessFrames(buffer, ok, |s.offered|);
      s := p.(offered := s.offered + p.offered);
      if s.status.Broken? {
        NodeStays(chunks, i + 1, ok);
        return;
      }
    }
    assert chunks[..|chunks|] == chunks;
  }

  // ------------------------------------------------ network: chunk invariance

  lemma {:induction false} NoFailure(frames: seq<Frame>, ok: nat -> bool, k: nat)
    requires forall i :: k <= i < k + |frames| - 1 ==> ok(i)
    ensures UntilFailure(frames, ok, k) == frames
    decreases |frames|
  {
    if |frames| == 1 {
      assert UntilFailure(frames[1..], ok, k + 1) == [];
    } else if frames != [] {
      NoFailure(frames[1..], ok, k + 1);
    }
  }

  // All the decoded frames of a chunk are offered exactly when no frame before
  // the last one fails; otherwise the rest of them is lost.
  lemma {:induction false} OfferedAllIff(frames: seq<Frame>, ok: nat -> bool, k: nat)
    ensures UntilFailure(frames, ok, k) <= frames
    ensures UntilFailure(frames, ok, k) == frames <==> forall i :: k <= i < k + |frames| - 1 ==> ok(i)
    decreases |frames|
  {
    if frames != [] {
      OfferedAllIff(frames[1..], ok, k + 1);
      if |frames| > 1 && UntilFailure(frames, ok, k) == frames {
        assert ok(k);
        assert UntilFailure(frames[1..], ok, k + 1) == frames[1..];
      }
    }
  }

  ghost predicate NeverFails(ok: nat -> bool) {
    forall k :: ok(k)
  }

  ghost predicate AgreesWith(s: Progress, p: Parsed, ok: nat -> bool) {
    && (s.status.Open? ==> !p.tooLarge && s.buffer == p.rest && (NeverFails(ok) ==> s.offered == p.frames))
    && (s.status.Broken? ==> p.tooLarge)
    && (NeverFails(ok) ==> s.offered <= p.frames)
  }

  // However the bytes are cut into chunks, the bytes kept are those of decoding
  // all the bytes at once, as long as the stream stays open, and so are the
  // frames offered when no handler fails; it breaks only when decoding all of
  // the bytes would.
  lemma {:induction false} ChunkInvariance(chunks: seq<seq<Byte>>, ok: nat -> bool)
    ensures AgreesWith(NetworkStream(chunks, ok), Parse(Concat(chunks)), ok)
  {
    if chunks != [] {
      var front, chunk := chunks[..|chunks| - 1], chunks[|chunks| - 1];
      var s, all := NetworkStream(front, ok), Concat(front);
      ChunkInvariance(front, ok);
      ParseMore(all, chunk);
      hide Parse;
      if s.status.Open? && NeverFails(ok) {
        NoFailure(Parse(s.buffer + chunk).frames, ok, |s.offered|);
      }
    }
  }

  // A chunk that brings too large a header breaks the stream, and no frame that it
  // completes before that header is offered: all frames have been offered exactly
  // when it completes none. A stream that exceeds the limit offers nothing more.
  lemma LastChunkOffersNothing(chunks: seq<seq<Byte>>, ok: nat -> bool)
    requires chunks != [] && NetworkStream(chunks[..|chunks| - 1], ok).status.Open?
    requires !NetworkStream(chunks, ok).status.Open?
    ensures var before, after := NetworkStream(chunks[..|chunks| - 1], ok), NetworkStream(chunks, ok);
            var b := before.buffer + chunks[|chunks| - 1];
            && after.offered == before.offered
            && (after.status.Aborted? <==> |b| > 2 * 256 * 1024) && (after.status.Broken? ==> Parse(b).tooLarge)
            && (NeverFails(ok) ==> (after.offered == Parse(Concat(chunks)).frames <==> Parse(b).frames == []))
  {
    var front, chunk := chunks[..|chunks| - 1], chunks[|chunks| - 1];
    ChunkInvariance(front, ok);
    ParseMore(Concat(front), chunk);
    hide Parse;
    var s := NetworkStream(front, ok);
    assert NeverFails(ok) ==> s.offered == Parse(Concat(front)).frames;
    var more := Parse(s.buffer + chunk).frames;
    assert more != [] ==> |s.offered + more| != |s.offered|;
    assert more == [] ==> s.offered + more == s.offered;
  }

  // How many frames the bytes of the first c chunks hold.
  function FramesUpTo(chunks: seq<seq<Byte>>, c: nat): nat
    requires c <= |chunks|
  {
    |Parse(Concat(chunks[..c])).frames|
  }

  ghost predicate LastOfChunk(chunks: seq<seq<Byte>>, c: nat, ok: nat -> bool)
    requires c < |chunks|
  {
    forall i :: FramesUpTo(chunks, c) <= i < FramesUpTo(chunks, c + 1) - 1 ==> ok(i)
  }

  // Every frame that fails is the last one to be completed by its chunk.
  ghost predicate FailuresAreLast(chunks: seq<seq<Byte>>, ok: nat -> bool) {
    forall c :: 0 <= c < |chunks| ==> LastOfChunk(chunks, c, ok)
  }

  lemma FailuresSnoc(chunks: seq<seq<Byte>>, ok: nat -> bool)
    requires chunks != []
    ensures FailuresAreLast(chunks, ok) <==>
            FailuresAreLast(chunks[..|chunks| - 1], ok) && LastOfChunk(chunks, |chunks| - 1, ok)
  {
    hide Parse;
    var front := chunks[..|chunks| - 1];
    forall c | 0 <= c < |front| ensures LastOfChunk(front, c, ok) <==> LastOfChunk(chunks, c, ok) {
      assert front[..c] == chunks[..c] && front[..c + 1] == chunks[..c + 1];
    }
  }

  lemma OneChunkOffers(offered: seq<Frame>, frames: seq<Frame>, more: seq<Frame>, ok: nat -> bool)
    requires offered != frames ==> |offered| < |frames|
    ensures var all := offered + UntilFailure(more, ok, |offered|);
            && (all == frames + more <==>
                  offered == frames && forall i :: |frames| <= i < |frames| + |more| - 1 ==> ok(i))
            && (all != frames + more ==> |all| < |frames + more|)
  {
    OfferedAllIff(more, ok, |offered|);
    hide UntilFailure;
    var taken := UntilFailure(more, ok, |offered|);
    assert offered + taken == frames + more ==> |offered| + |taken| == |frames| + |more|;
    assert offered == frames && taken == more ==> offered + taken == frames + more;
    assert taken <= more && |taken| == |more| ==> taken == more;
  }

  // With failing handlers the chunks matter: an open stream has offered all the
  // frames of its bytes if and only if every failing frame is the last of its
  // chunk. Otherwise it has offered fewer.
  lemma {:induction false} StreamOffersAllIff(chunks: seq<seq<Byte>>, ok: nat -> bool)
    requires NetworkStream(chunks, ok).status.Open?
    ensures var offered, frames := NetworkStream(chunks, ok).offered, Parse(Concat(chunks)).frames;
            && (offered == frames <==> FailuresAreLast(chunks, ok))
            && (offered != frames ==> |offered| < |frames|)
  {
    if chunks != [] {
      var n := |chunks| - 1;
      var front, chunk := chunks[..n], chunks[n];
      var s, all := NetworkStream(front, ok), Concat(front);
      StreamOffersAllIff(front, ok);
      ChunkInvariance(front, ok);
      ParseMore(all, chunk);
      FailuresSnoc(chunks, ok);
      assert chunks[..n + 1] == chunks;
      hide Parse;
      var p := Parse(s.buffer + chunk);
      assert FramesUpTo(chunks, n) == |Parse(all).frames|;
      assert FramesUpTo(chunks, n + 1) == |Parse(all).frames| + |p.frames|;
      hide FailuresAreLast, UntilFailure;
      OneChunkOffers(s.offered, Parse(all).frames, p.frames, ok);
    }
  }

  lemma PrefixGrows(offered: seq<Frame>, a: seq<Byte>, b: seq<Byte>)
    requires offered <= Parse(a).frames
    ensures offered <= Parse(a + b).frames && (Parse(a).tooLarge ==> Parse(a + b).tooLarge)
    ensures Parse(a).tooLarge ==> Parse(a + b).frames == Parse(a).frames
  {
    ParseMore(a, b);
  }

  predicate UpTo(chunks: seq<seq<Byte>>, c: nat) {
    forall i :: 0 <= i < |chunks| ==> |chunks[i]| <= c
  }

  // No stream of chunks of at most `c` bytes is ever aborted, exactly for the
  // `c` up to three bytes below the largest frame.
  lemma NoAbortIff(c: nat, ok: nat -> bool)
    ensures (forall chunks: seq<seq<Byte>> :: UpTo(chunks, c) ==> !NetworkStream(chunks, ok).status.Aborted?)
       <==> c <= MAX_FRAME_SIZE_BYTES - 3
  {
    if c <= MAX_FRAME_SIZE_BYTES - 3 {
      forall chunks: seq<seq<Byte>> | UpTo(chunks, c) ensures !NetworkStream(chunks, ok).status.Aborted? {
        SmallChunksNeverAbort(chunks, c, ok);
      }
    } else {
      AbortingStream(ok);
      assert UpTo(AbortingChunks(), c);
    }
  }

  lemma {:induction false} SmallChunksNeverAbort(chunks: seq<seq<Byte>>, c: nat, ok: nat -> bool)
    requires c <= MAX_FRAME_SIZE_BYTES - 3 && UpTo(chunks, c)
    ensures !NetworkStream(chunks, ok).status.Aborted?
  {
    if chunks != [] {
      var front := chunks[..|chunks| - 1];
      SmallChunksNeverAbort(front, c, ok);
      ChunkInvariance(front, ok);
      RestIsShort(Concat(front));
    }
  }

  function Zeros(n: nat): (z: seq<Byte>)
    ensures |z| == n
  {
    seq(n, _ => 0)
  }

  // A header that announces the largest frame, with one byte of that frame
  // missing, and then one chunk too many.
  function AbortingChunks(): seq<seq<Byte>> {
    [Header(MAX_FRAME_SIZE_BYTES) + Zeros(MAX_FRAME_SIZE_BYTES - 6), Zeros(5), Zeros(MAX_FRAME_SIZE_BYTES - 2)]
  }

  lemma HeaderOnly(b: seq<Byte>, body: seq<Byte>)
    requires b == Header(MAX_FRAME_SIZE_BYTES) + body && |body| < MAX_FRAME_SIZE_BYTES
    ensures Parse(b) == Parsed([], b, false)
  {
    SizeOfHeader(MAX_FRAME_SIZE_BYTES, body);
  }

  // Three chunks, when the first two leave an unfinished frame.
  lemma ThreeChunks(x: seq<Byte>, y: seq<Byte>, z: seq<Byte>, ok: nat -> bool)
    requires Parse(x) == Parsed([], x, false) && Parse(x + y) == Parsed([], x + y, false)
    requires |x + y| <= MAX_RECEIVE_BUFFER_BYTES < |x + y + z|
    ensures NetworkStream([x, y, z], ok).status.Aborted?
  {
    hide Parse;
    assert [x, y, z][..2] == [x, y] && [x, y][..1] == [x] && [x][..0] == [];
    assert [] + x == x;
    assert NetworkStream([x], ok) == NetworkChunk(Fresh, x, ok) == Progress([], x, Open);
    assert NetworkStream([x, y], ok) == NetworkChunk(Progress([], x, Open), y, ok) == Progress([], x + y, Open);
  }

  lemma AbortingStream(ok: nat -> bool)
    ensures NetworkStream(AbortingChunks(), ok).status.Aborted?
  {
    hide Header;
    var h, body := Header(MAX_FRAME_SIZE_BYTES), Zeros(MAX_FRAME_SIZE_BYTES - 6);
    HeaderOnly(h + body, body);
    assert h + body + Zeros(5) == h + (body + Zeros(5));
    HeaderOnly(h + body + Zeros(5), body + Zeros(5));
    ThreeChunks(h + body, Zeros(5), Zeros(MAX_FRAME_SIZE_BYTES - 2), ok);
  }

  // ------------------------------------------------- node: conservation

  // Frames offered so far, followed by the frames still in the buffer, are the
  // frames of all the bytes received.
  ghost predicate Conserves(s: Progress, p: Parsed) {
    var left := Parse(s.buffer);
    match s.status
    case Open => s.offered + left.frames == p.frames && left.rest == p.rest && left.tooLarge == p.tooLarge
    case Broken => p.tooLarge && s.offered == p.frames
    case Aborted => s.offered <= p.frames
  }

  lemma {:induction false} NodeFramesConserve(b: seq<Byte>, ok: nat -> bool, k: nat)
    ensures Conserves(NodeFrames(b, ok, k), Parse(b))
    decreases |b|
  {
    if |b| >= 4 && Size(b) <= MAX_FRAME_SIZE_BYTES && |b| >= 4 + Size(b) {
      var frame, rest := b[4..4 + Size(b)], b[4 + Size(b)..];
      if ok(k) {
        NodeFramesConserve(rest, ok, k + 1);
        var tail := NodeFrames(rest, ok, k + 1);
        assert [frame] + (tail.offered + Parse(tail.buffer).frames) == ([frame] + tail.offered) + Parse(tail.buffer).frames;
      }
    }
  }

  // At every chunk boundary, whatever handlers throw: each frame of the bytes
  // received so far has been offered once, in order, or is still in the buffer.
  lemma {:induction false} NodeConservation(chunks: seq<seq<Byte>>, ok: nat -> bool)
    ensures Conserves(NodeStream(chunks, ok), Parse(Concat(chunks)))
  {
    if chunks != [] {
      var front, chunk := chunks[..|chunks| - 1], chunks[|chunks| - 1];
      var s, all := NodeStream(front, ok), Concat(front);
      NodeConservation(front, ok);
      hide Parse, NodeFrames, Conserves;
      if s.status.Open? {
        MoreBytesConserve(s, all, chunk);
        NodeFramesConserve(s.buffer + chunk, ok, |s.offered|);
        NodeChunkConserves(s, chunk, ok, Parse(all + chunk));
      } else {
        ClosedConserves(s, all, chunk);
      }
    }
  }

  lemma ClosedConserves(s: Progress, all: seq<Byte>, chunk: seq<Byte>)
    requires !s.status.Open? && Conserves(s, Parse(all))
    ensures Conserves(s, Parse(all + chunk))
  {
    PrefixGrows(s.offered, all, chunk);
  }

  lemma MoreBytesConserve(s: Progress, all: seq<Byte>, chunk: seq<Byte>)
    requires s.status.Open? && Conserves(s, Parse(all))
    ensures Conserves(s.(buffer := s.buffer + chunk), Parse(all + chunk))
  {
    ParseMore(all, chunk);
    ParseMore(s.buffer, chunk);
    hide Parse;
    var left := Parse(s.buffer);
    if !left.tooLarge {
      var more := Parse(left.rest + chunk);
      assert s.offered + (left.frames + more.frames) == (s.offered + left.frames) + more.frames;
    }
  }

  lemma NodeChunkConserves(s: Progress, chunk: seq<Byte>, ok: nat -> bool, after: Parsed)
    requires s.status.Open? && Conserves(s.(buffer := s.buffer + chunk), after)
    requires var f := NodeFrames(s.buffer + chunk, ok, |s.offered|);
             Conserves(f, Parse(s.buffer + chunk))
    ensures Conserves(NodeChunk(s, chunk, ok), after)
  {
    hide Parse, NodeFrames;
    var f := NodeFrames(s.buffer + chunk, ok, |s.offered|);
    assert s.offered + (f.offered + Parse(f.buffer).frames) == (s.offered + f.offered) + Parse(f.buffer).frames;
  }

  lemma SameTail(front: seq<Frame>, a: seq<Frame>, b: seq<Frame>)
    ensures front + a == front + b <==> a == b
  {
    assert (front + a)[|front|..] == a && (front + b)[|front|..] == b;
  }

  lemma {:induction false} NodeFramesOfferAllIff(b: seq<Byte>, ok: nat -> bool, k: nat)
    requires NodeFrames(b, ok, k).status.Open?
    ensures var offered, frames := NodeFrames(b, ok, k).offered, Parse(b).frames;
            offered == frames <==> forall i :: k <= i < k + |frames| - 1 ==> ok(i)
    decreases |b|
  {
    if |b| >= 4 && Size(b) <= MAX_FRAME_SIZE_BYTES && |b| >= 4 + Size(b) {
      var frame, rest := b[4..4 + Size(b)], b[4 + Size(b)..];
      var more := Parse(rest).frames;
      assert Parse(b).frames == [frame] + more;
      if ok(k) {
        NodeFramesOfferAllIff(rest, ok, k + 1);
        var tail := NodeFrames(rest, ok, k + 1).offered;
        SameTail([frame], tail, more);
      } else if more != [] {
        assert |[frame] + more| != 1;
        assert k < k + |[frame] + more| - 1;
      }
    }
  }

  // An open stream of the node has offered all the frames of its bytes if and
  // only if, of the frames still to be offered when the last chunk came, none
  // but the last one failed. Failures at earlier chunks only delay frames.
  lemma NodeStreamOffersAllIff(chunks: seq<seq<Byte>>, ok: nat -> bool)
    requires chunks != [] && NodeStream(chunks, ok).status.Open?
    ensures var before := |NodeStream(chunks[..|chunks| - 1], ok).offered|;
            var offered, frames := NodeStream(chunks, ok).offered, Parse(Concat(chunks)).frames;
            offered == frames <==> forall i :: before <= i < |frames| - 1 ==> ok(i)
  {
    var front, chunk := chunks[..|chunks| - 1], chunks[|chunks| - 1];
    var s, all := NodeStream(front, ok), Concat(front);
    NodeConservation(front, ok);
    MoreBytesConserve(s, all, chunk);
    hide Parse, NodeFrames;
    var b := s.buffer + chunk;
    NodeFramesOfferAllIff(b, ok, |s.offered|);
    var now, left := NodeFrames(b, ok, |s.offered|).offered, Parse(b).frames;
    SameTail(s.offered, now, left);
  }

  // ------------------------------------------------------ node: chunk sizes

  // A buffer with no whole frame in it and no oversized header.
  predicate Partial(b: seq<Byte>) {
    |b| < 4 || (Size(b) <= MAX_FRAME_SIZE_BYTES && |b| < 4 + Size(b))
  }

  lemma {:induction false} OnlyPartialLeft(b: seq<Byte>, ok: nat -> bool, k: nat)
    requires NeverFails(ok)
    ensures NodeFrames(b, ok, k).status.Open? ==> Partial(NodeFrames(b, ok, k).buffer)
    decreases |b|
  {
    hide Uint32;
    if WholeFrame(b) {
      OnlyPartialLeft(b[4 + Size(b)..], ok, k + 1);
    }
  }

  // Four bytes complete one frame at most, and leave less than a header after it.
  lemma FourBytes(b: seq<Byte>, chunk: seq<Byte>, ok: nat -> bool, k: nat)
    requires Partial(b) && |chunk| <= 4
    ensures NodeFrames(b + chunk, ok, k).status.Open? ==> Partial(NodeFrames(b + chunk, ok, k).buffer)
  {
    var all := b + chunk;
    assert |b| >= 4 ==> Size(all) == Size(b);
    hide Uint32;
    if WholeFrame(all) {
      var rest := all[4 + Size(all)..];
      assert |rest| < 4;
      assert NodeFrames(rest, ok, k + 1) == Progress([], rest, Open);
    }
  }

  // Chunk sizes for which the loop of the node never runs into its limit.
  ghost predicate NodeIsSafe(c: nat, ok: nat -> bool) {
    forall chunks: seq<seq<Byte>> :: UpTo(chunks, c) ==> !NodeStream(chunks, ok).status.Aborted?
  }

  lemma {:induction false} NodeStaysPartial(chunks: seq<seq<Byte>>, c: nat, ok: nat -> bool)
    requires UpTo(chunks, c) && (c <= 4 || (NeverFails(ok) && c <= MAX_FRAME_SIZE_BYTES - 3))
    ensures var s := NodeStream(chunks, ok);
            !s.status.Aborted? && (s.status.Open? ==> Partial(s.buffer))
  {
    hide NodeFrames, Size;
    if chunks != [] {
      var front, chunk := chunks[..|chunks| - 1], chunks[|chunks| - 1];
      NodeStaysPartial(front, c, ok);
      var s := NodeStream(front, ok);
      if s.status.Open? {
        if c <= 4 {
          FourBytes(s.buffer, chunk, ok, |s.offered|);
        } else {
          OnlyPartialLeft(s.buffer + chunk, ok, |s.offered|);
        }
      }
    }
  }

  // When no handler fails, the loop of the node is safe for the same chunk sizes
  // as the loop of the network module.
  lemma NodeSafeIff(c: nat, ok: nat -> bool)
    requires NeverFails(ok)
    ensures NodeIsSafe(c, ok) <==> c <= MAX_FRAME_SIZE_BYTES - 3
  {
    if c <= MAX_FRAME_SIZE_BYTES - 3 {
      forall chunks: seq<seq<Byte>> | UpTo(chunks, c) ensures !NodeStream(chunks, ok).status.Aborted? {
        NodeStaysPartial(chunks, c, ok);
      }
    } else {
      NodeAborts(ok);
      assert UpTo(AbortingChunks(), c);
    }
  }

  // A failing handler stops the loop after one frame, so that larger chunks can
  // bring in more frames than it handles: whatever handlers do, only chunks of at
  // most four bytes are safe.
  lemma NodeSafeForAllIff(c: nat)
    ensures (forall ok: nat -> bool :: NodeIsSafe(c, ok)) <==> c <= 4
  {
    if c <= 4 {
      forall ok: nat -> bool ensures NodeIsSafe(c, ok) {
        forall chunks: seq<seq<Byte>> | UpTo(chunks, c) ensures !NodeStream(chunks, ok).status.Aborted? {
          NodeStaysPartial(chunks, c, ok);
        }
      }
    } else {
      var n := MAX_RECEIVE_BUFFER_BYTES - 3;
      PilesUp(n);
      assert UpTo(Fives(n), c);
      assert !NodeIsSafe(c, AlwaysFails());
    }
  }

  function AlwaysFails(): nat -> bool {
    _ => false
  }

  // Chunks of five zero bytes: an empty frame and a quarter of the next.
  function Fives(n: nat): (chunks: seq<seq<Byte>>)
    ensures |chunks| == n && forall i :: 0 <= i < n ==> |chunks[i]| == 5
  {
    seq(n, _ => Zeros(5))
  }

  lemma ZerosFrame(n: nat, k: nat)
    requires n >= 4
    ensures NodeFrames(Zeros(n), AlwaysFails(), k) == Progress([[]], Zeros(n - 4), Open)
  {
    assert Size(Zeros(n)) == 0;
    assert Zeros(n)[4..] == Zeros(n - 4) && Zeros(n)[4..4] == [];
  }

  // Each chunk adds one byte to what is left, until the limit is reached.
  lemma {:induction false} PilesUp(n: nat)
    requires n <= MAX_RECEIVE_BUFFER_BYTES - 3
    ensures var s := NodeStream(Fives(n), AlwaysFails());
            if n <= MAX_RECEIVE_BUFFER_BYTES - 4 then s.status.Open? && s.buffer == Zeros(n) else s.status.Aborted?
  {
    if n > 0 {
      PilesUp(n - 1);
      assert Fives(n)[..n - 1] == Fives(n - 1);
      var s := NodeStream(Fives(n - 1), AlwaysFails());
      assert s.buffer + Fives(n)[n - 1] == Zeros(n + 4);
      ZerosFrame(n + 4, |s.offered|);
    } else {
      assert Zeros(0) == [];
    }
  }

  lemma NodeThreeChunks(x: seq<Byte>, y: seq<Byte>, z: seq<Byte>, ok: nat -> bool)
    requires Partial(x) && Partial(x + y)
    requires |x + y| <= MAX_RECEIVE_BUFFER_BYTES < |x + y + z|
    ensures NodeStream([x, y, z], ok).status.Aborted?
  {
    hide Size;
    assert [x, y, z][..2] == [x, y] && [x, y][..1] == [x] && [x][..0] == [];
    assert [] + x == x;
    assert NodeStream([x], ok) == NodeChunk(Fresh, x, ok) == Progress([], x, Open);
    assert NodeStream([x, y], ok) == NodeChunk(Progress([], x, Open), y, ok) == Progress([], x + y, Open);
  }

  lemma NodeAborts(ok: nat -> bool)
    ensures NodeStream(AbortingChunks(), ok).status.Aborted?
  {
    hide Header;
    var h, body := Header(MAX_FRAME_SIZE_BYTES), Zeros(MAX_FRAME_SIZE_BYTES - 6);
    SizeOfHeader(MAX_FRAME_SIZE_BYTES, body);
    assert h + body + Zeros(5) == h + (body + Zeros(5));
    SizeOfHeader(MAX_FRAME_SIZE_BYTES, body + Zeros(5));
    NodeThreeChunks(h + body, Zeros(5), Zeros(MAX_FRAME_SIZE_BYTES - 2), ok);
  }
}
