/**
 * Fixed framing of messages (pkg/topic/proto_framing.go): a magic word, a little-endian length and a payload. Frames
 * are unpacked from a buffered reader, whichever way its buffer is filled.
 */
module Framing {
  import opened Common

  const Magic: Bytes := [0x66, 0x33, 0x93, 0x36]
  const HeaderLength: nat := 8
  const Newline: byte := 0x0a

  /** io.EOF, io.ErrUnexpectedEOF, bufio.ErrBufferFull, or another error of the reader beneath. */
  datatype Error = EOF | UnexpectedEOF | BufferFull | Other

  predicate MagicAt(s: Bytes, i: nat) {
    i + 4 <= |s| && s[i] == 0x66 && s[i + 1] == 0x33 && s[i + 2] == 0x93 && s[i + 3] == 0x36
  }

  // ---------------------------------------------------------------------------
  // Lengths

  const Limit: nat := 0x1_0000_0000

  function PutUint32(n: nat): (b: Bytes)
    ensures |b| == 4
  {
    [(n % 256) as byte, (n / 256 % 256) as byte, (n / 65536 % 256) as byte, (n / 16777216 % 256) as byte]
  }

  function Uint32(b: Bytes): (n: nat)
    requires |b| >= 4
    ensures n < Limit
  {
    (b[0] as int) + 256 * (b[1] as int) + 65536 * (b[2] as int) + 16777216 * (b[3] as int)
  }

  /** The least significant byte comes first: each byte more of a length takes the next of its field. */
  lemma LeastIsFirst(n: nat)
    ensures n < 256 ==> PutUint32(n) == [n as byte, 0, 0, 0]
    ensures n < 65536 ==> PutUint32(n)[2] == PutUint32(n)[3] == 0
    ensures n < 16777216 ==> PutUint32(n)[3] == 0
  {
    if n < 65536 {
      assert n / 65536 == 0;
    }
    if n < 16777216 {
      assert n / 16777216 == 0;
    }
  }

  /** A length is read back, up to the width of its field. */
  lemma Uint32RoundTrip(n: nat)
    ensures Uint32(PutUint32(n)) == n % Limit
  {
    var a := n / 256;
    var b := a / 256;
    var c := b / 256;
    assert n / 65536 == b && n / 16777216 == c;
    assert n == 256 * a + n % 256 && a == 256 * b + a % 256 && b == 256 * c + b % 256;
    assert c == 256 * (c / 256) + c % 256;
    assert n == Limit * (c / 256) + Uint32(PutUint32(n));
  }

  function FrameSize(s: Bytes): nat
    requires |s| >= HeaderLength
  {
    HeaderLength + Uint32(s[4..])
  }

  // ---------------------------------------------------------------------------
  // Encoding

  /** A message which isn't frameable, or the bytes it marshals to, unless that fails. */
  datatype Message = NotFrameable | Frameable(payload: Bytes, fails: bool)

  function Frame(payload: Bytes): (f: Bytes)
    ensures |f| == HeaderLength + |payload|
  {
    Magic + PutUint32(|payload|) + payload
  }

  lemma FrameIs(b: Bytes, payload: Bytes)
    ensures b + Magic + PutUint32(|payload|) + payload == b + Frame(payload)
  {
    hide PutUint32;
  }

  /** Overwrite the array from `at` on. */
  method CopyInto(a: array<byte>, at: nat, s: Bytes)
    requires at + |s| <= a.Length
    modifies a
    ensures a[..at + |s|] == old(a[..at]) + s && a[at + |s|..] == old(a[at + |s|..])
  {
    for i := 0 to |s|
      invariant a[..at + i] == old(a[..at]) + s[..i] && a[at + i..] == old(a[at + i..])
    {
      assert a[at + i..][1..] == a[at + i + 1..];
      a[at + i] := s[i];
      assert a[..at + i + 1] == a[..at + i] + [s[i]];
    }
  }

  /**
   * Encode appends the frame of a message. The buffer is grown or extended in place; what it then holds past its
   * former end is arbitrary.
   */
  method Encode(msg: Message, b: Bytes) returns (r: Option<Bytes>)
    ensures r.Some? <==> msg.Frameable? && !msg.fails
    ensures r.Some? ==> r.value == b + Frame(msg.payload)
  {
    if !msg.Frameable? {
      return None;
    }
    hide PutUint32, Frame;
    var size, offset := HeaderLength + |msg.payload|, |b|;
    var a := new byte[offset + size];
    CopyInto(a, 0, b);
    assert a[..offset] == b;
    CopyInto(a, offset, Magic);
    CopyInto(a, offset + 4, PutUint32(size - HeaderLength));
    if msg.fails {
      return None;
    }
    CopyInto(a, offset + HeaderLength, msg.payload);
    assert a[..] == a[..offset + size];
    FrameIs(b, msg.payload);
    return Some(a[..]);
  }

  // ---------------------------------------------------------------------------
  // A buffered reader

  lemma TakeStep(got: Bytes, buf: Bytes, src: Bytes, k: nat)
    requires k <= |buf|
    ensures (got + buf[..k]) + (buf[k..] + src) == got + (buf + src)
  {
    assert buf == buf[..k] + buf[k..];
  }

  lemma TakenAll(got: Bytes, rest: Bytes)
    ensures (got + rest)[..|got|] == got && (got + rest)[|got|..] == rest
  {
  }

  class Reader {
    const size: nat          // Size of the buffer.
    const end: Error         // Error of the reader beneath, at its end.
    const chunk: nat -> nat  // How many bytes each read from beneath would like to return.
    var buf: Bytes           // Bytes which are buffered.
    var src: Bytes           // Bytes which were not read yet.
    var fills: nat

    constructor (size: nat, end: Error, chunk: nat -> nat, src: Bytes)
      requires size >= 16
      ensures Valid() && Rest() == src && this.size == size && this.end == end && this.chunk == chunk
    {
      this.size, this.end, this.chunk := size, end, chunk;
      this.buf, this.src, this.fills := [], src, 0;
    }

    ghost predicate Valid()
      reads this
    {
      size >= 16 && |buf| <= size
    }

    /** What is yet to be consumed. */
    ghost function Rest(): Bytes
      reads this
    {
      buf + src
    }

    /** One read from beneath: of at least a byte, and no more than there's space for. */
    method Fill()
      requires Valid() && |buf| < size && src != []
      modifies `buf, `src, `fills
      ensures Valid() && Rest() == old(Rest()) && |src| < |old(src)|
    {
      var n := chunk(fills);
      if n > size - |buf| {
        n := size - |buf|;
      }
      if n > |src| {
        n := |src|;
      }
      if n == 0 {
        n := 1;
      }
      buf, src, fills := buf + src[..n], src[n..], fills + 1;
    }

    method Peek(n: nat) returns (b: Bytes, err: Option<Error>)
      requires Valid()
      modifies `buf, `src, `fills
      ensures Valid() && Rest() == old(Rest())
      ensures err == None <==> n <= size && n <= |Rest()|
      ensures err == None ==> n <= |buf| && b == buf[..n] == Rest()[..n]
      ensures err.Some? ==> b == buf && err.value == if n > size then BufferFull else end
      ensures err.Some? && n <= size ==> buf == Rest()
    {
      while |buf| < n && |buf| < size && src != []
        invariant Valid() && Rest() == old(Rest())
        decreases |src|
      {
        Fill();
      }
      if n > size {
        return buf, Some(BufferFull);
      } else if |buf| < n {
        return buf, Some(end);
      }
      return buf[..n], None;
    }

    method Discard(n: nat)
      requires Valid() && n <= |buf|
      modifies `buf
      ensures Valid() && Rest() == old(Rest()[n..])
    {
      buf := buf[n..];
    }

    /** io.ReadFull of `n` bytes into a buffer of zeros. */
    method ReadFull(n: nat) returns (b: Bytes, err: Option<Error>)
      requires Valid()
      modifies `buf, `src, `fills
      ensures Valid() && |b| == n
      ensures old(|Rest()|) >= n ==> err == None && b == old(Rest()[..n]) && Rest() == old(Rest()[n..])
      ensures old(|Rest()|) < n ==> Rest() == [] && old(Rest()) <= b
      ensures old(|Rest()|) < n ==> err == Some(if end == EOF && old(Rest()) != [] then UnexpectedEOF else end)
    {
      var got := [];
      while |got| < n && (buf != [] || src != [])
        invariant Valid() && |got| <= n && got + Rest() == old(Rest())
        decreases n - |got|, |src|
      {
        if buf == [] {
          Fill();
        } else {
          var k := if |buf| < n - |got| then |buf| else n - |got|;
          TakeStep(got, buf, src, k);
          got, buf := got + buf[..k], buf[k..];
        }
      }
      TakenAll(got, Rest());
      if |got| == n {
        return got, None;
      }
      b := got + seq(n - |got|, _ => 0);
      err := Some(if end == EOF && got != [] then UnexpectedEOF else end);
    }
  }

  // ---------------------------------------------------------------------------
  // Unpacking

  /** There's a next frame: a whole one, or desynchronized content in front of enough bytes. */
  predicate CanUnpack(s: Bytes) {
    |s| >= HeaderLength && (MagicAt(s, 0) ==> FrameSize(s) <= |s|)
  }

  /**
   * The next `n` bytes are a frame. Desynchronized content reaches up to the next magic word, and not past it. It
   * falls short of it only if that's not within the buffered bytes: then three bytes, which one may begin with, are
   * left of them.
   */
  ghost predicate IsFrame(s: Bytes, n: nat)
    requires CanUnpack(s)
  {
    if MagicAt(s, 0) then n == FrameSize(s)
    else 1 <= n && n + 3 <= |s| && (MagicAt(s, n) || n + 3 >= HeaderLength) && forall k: nat :: k < n ==> !MagicAt(s, k)
  }

  /** Why there's no next frame. A trailing newline is as good as an end. */
  function FailureOf(s: Bytes, end: Error): Error {
    if end != EOF then end
    else if s == [] || s == [Newline] then EOF
    else UnexpectedEOF
  }

  /** The next magic word past the first byte, or where one may begin. */
  method Scan(b: Bytes) returns (i: nat)
    requires |b| >= 4 && !MagicAt(b, 0)
    ensures 1 <= i <= |b| - 3 && (forall k: nat :: k < i ==> !MagicAt(b, k))
    ensures i < |b| - 3 ==> MagicAt(b, i)
  {
    i := 1;
    var j := 1 + |b| - 4;
    while i != j
      invariant 1 <= i <= j && forall k: nat :: k < i ==> !MagicAt(b, k)
    {
      if MagicAt(b, i) {
        break;
      }
      i := i + 1;
    }
  }

  lemma PrefixMagic(s: Bytes, b: Bytes, k: nat)
    requires b <= s && k + 4 <= |b|
    ensures MagicAt(s, k) <==> MagicAt(b, k)
  {
  }

  /** Return the next frame, by the fast path or the slow one. */
  method Unpack(r: Reader) returns (frame: Bytes, err: Option<Error>)
    requires r.Valid()
    modifies r`buf, r`src, r`fills
    ensures r.Valid()
    ensures err == None <==> CanUnpack(old(r.Rest()))
    ensures err == None ==> frame + r.Rest() == old(r.Rest()) && IsFrame(old(r.Rest()), |frame|)
    ensures err == None && !MagicAt(old(r.Rest()), 0) ==> MagicAt(old(r.Rest()), |frame|) || |r.buf| == 3
    ensures err.Some? ==> err.value == FailureOf(old(r.Rest()), r.end)
    ensures err.Some? && |old(r.Rest())| < HeaderLength ==> frame == [] && r.Rest() == old(r.Rest())
    ensures err.Some? && |old(r.Rest())| >= HeaderLength ==> old(r.Rest()) <= frame && r.Rest() == []
  {
    ghost var s := r.Rest();
    var b;
    b, err := r.Peek(HeaderLength);
    if err.Some? {
      if err.value == EOF && |b| == 1 && b[0] == Newline {
        assert s == [Newline];
        return [], Some(EOF);
      }
      if err.value == EOF && |b| != 0 {
        err := Some(UnexpectedEOF);
      }
      return [], err;
    }
    PrefixMagic(s, b, 0);
    if !MagicAt(b, 0) {
      b := r.buf;
      PrefixMagic(s, b, 0);
      var i := Scan(b);
      forall k: nat | k < i
        ensures !MagicAt(s, k)
      {
        PrefixMagic(s, b, k);
      }
      if i < |b| - 3 {
        PrefixMagic(s, b, i);
      }
      r.Discard(i);
      assert s == s[..i] + s[i..];
      return b[..i], None;
    }
    var size := HeaderLength + Uint32(b[4..]);
    assert size == FrameSize(s);
    b, err := r.Peek(size);
    if err == None {
      r.Discard(size);
      assert s == s[..size] + s[size..];
      return b, None;
    }
    frame, err := r.ReadFull(size);
    if err == None {
      assert s == s[..size] + s[size..];
    }
  }

  // ---------------------------------------------------------------------------
  // Whole streams

  function Concat(frames: seq<Bytes>): Bytes {
    if frames == [] then [] else frames[0] + Concat(frames[1..])
  }

  /** Frames which a stream may be unpacked as, one after another. */
  ghost predicate AreFrames(s: Bytes, frames: seq<Bytes>)
    decreases |frames|
  {
    frames == []
      || (CanUnpack(s) && frames[0] <= s && IsFrame(s, |frames[0]|) && AreFrames(s[|frames[0]|..], frames[1..]))
  }

  lemma {:induction false} FramesArePrefix(s: Bytes, frames: seq<Bytes>)
    requires AreFrames(s, frames)
    ensures Concat(frames) <= s
    decreases |frames|
  {
    if frames != [] {
      FramesArePrefix(s[|frames[0]|..], frames[1..]);
      assert s == frames[0] + s[|frames[0]|..];
    }
  }

  lemma {:induction false} FramesSnoc(s: Bytes, frames: seq<Bytes>, f: Bytes, rest: Bytes)
    requires AreFrames(s, frames) && s == Concat(frames) + f + rest
    requires CanUnpack(f + rest) && IsFrame(f + rest, |f|)
    ensures AreFrames(s, frames + [f]) && Concat(frames + [f]) == Concat(frames) + f
    decreases |frames|
  {
    hide CanUnpack, IsFrame;
    if frames == [] {
      assert s == f + rest;
      assert (frames + [f])[1..] == [];
    } else {
      var t := s[|frames[0]|..];
      assert s == frames[0] + (Concat(frames[1..]) + f + rest);
      assert t == Concat(frames[1..]) + f + rest;
      FramesSnoc(t, frames[1..], f, rest);
      assert (frames + [f])[1..] == frames[1..] + [f];
    }
  }

  /**
   * Unpack until there's an error: frames are a prefix of the stream, whatever it holds, and what's left is no frame.
   */
  method UnpackAll(r: Reader) returns (frames: seq<Bytes>, err: Error, ghost rest: Bytes)
    requires r.Valid()
    modifies r`buf, r`src, r`fills
    ensures AreFrames(old(r.Rest()), frames) && Concat(frames) + rest == old(r.Rest())
    ensures !CanUnpack(rest) && err == FailureOf(rest, r.end)
  {
    frames, rest := [], r.Rest();
    while true
      invariant r.Valid() && rest == r.Rest()
      invariant AreFrames(old(r.Rest()), frames) && Concat(frames) + rest == old(r.Rest())
      decreases |r.Rest()|
    {
      var frame, e := Unpack(r);
      if e.Some? {
        return frames, e.value, rest;
      }
      assert rest == frame + r.Rest();
      FramesSnoc(old(r.Rest()), frames, frame, r.Rest());
      frames, rest := frames + [frame], r.Rest();
    }
  }

  // ---------------------------------------------------------------------------
  // Encoded frames unpack back

  /** The frame of a payload is what's unpacked next just if the payload's length fits its field. */
  lemma FrameIsUnpacked(p: Bytes, t: Bytes)
    ensures var s := Frame(p) + t;
      && MagicAt(s, 0) && |s| >= HeaderLength && FrameSize(s) == HeaderLength + |p| % Limit && CanUnpack(s)
      && (IsFrame(s, |Frame(p)|) <==> |p| < Limit)
  {
    var s := Frame(p) + t;
    FrameHeader(p, t);
    hide Frame;
    assert MagicAt(s, 0) by {
      assert forall i :: 0 <= i < 4 ==> s[i] == s[..4][i];
    }
    Uint32OfPrefix(s[4..]);
    Uint32RoundTrip(|p|);
    hide PutUint32, Uint32;
  }

  lemma FrameHeader(p: Bytes, t: Bytes)
    ensures var s := Frame(p) + t; |s| >= HeaderLength && s[..4] == Magic && s[4..][..4] == PutUint32(|p|)
  {
    hide PutUint32;
  }

  lemma Uint32OfPrefix(b: Bytes)
    requires |b| >= 4
    ensures Uint32(b) == Uint32(b[..4])
  {
  }

  /** No magic word begins in `g`. */
  ghost predicate IsGarbage(g: Bytes) {
    forall k: nat :: k < |g| ==> !MagicAt(g, k)
  }

  /** The magic word does not overlap itself, so none begins in garbage which is followed by a frame. */
  lemma GarbageEndsAtFrame(g: Bytes, p: Bytes, t: Bytes, k: nat)
    requires IsGarbage(g) && k < |g|
    ensures !MagicAt(g + (Frame(p) + t), k)
  {
    var s := g + (Frame(p) + t);
    assert forall i :: 0 <= i < 4 ==> s[|g| + i] == Magic[i];
    if k + 4 <= |g| {
      PrefixMagic(s, g, k);
    } else {
      assert s[|g|] == 0x66;
    }
  }

  /** Whatever is unpacked of garbage before a frame leaves the frame whole. */
  lemma GarbageFrame(g: Bytes, p: Bytes, t: Bytes, n: nat)
    requires IsGarbage(g) && g != []
    ensures CanUnpack(g + (Frame(p) + t)) && !MagicAt(g + (Frame(p) + t), 0)
    ensures IsFrame(g + (Frame(p) + t), n) ==> 1 <= n <= |g|
  {
    var s := g + (Frame(p) + t);
    GarbageEndsAtFrame(g, p, t, 0);
    assert forall i :: 0 <= i < 4 ==> s[|g| + i] == Magic[i];
    assert MagicAt(s, |g|);
  }

  lemma GarbageSuffix(g: Bytes, n: nat)
    requires IsGarbage(g) && n <= |g|
    ensures IsGarbage(g[n..])
  {
    forall k: nat | k < |g| - n
      ensures !MagicAt(g[n..], k)
    {
      assert !MagicAt(g, n + k);
    }
  }

  /** Frames which aren't desynchronized. */
  function InSync(frames: seq<Bytes>): seq<Bytes> {
    if frames == [] then [] else (if MagicAt(frames[0], 0) then [frames[0]] else []) + InSync(frames[1..])
  }

  /** Garbage, and the payload of a frame which follows it. */
  datatype Chunk = Chunk(garbage: Bytes, payload: Bytes)

  function Stream(chunks: seq<Chunk>, tail: Bytes): Bytes {
    if chunks == [] then tail else chunks[0].garbage + (Frame(chunks[0].payload) + Stream(chunks[1..], tail))
  }

  function FramesOf(chunks: seq<Chunk>): seq<Bytes> {
    if chunks == [] then [] else [Frame(chunks[0].payload)] + FramesOf(chunks[1..])
  }

  ghost predicate AreChunks(chunks: seq<Chunk>) {
    forall i :: 0 <= i < |chunks| ==> IsGarbage(chunks[i].garbage) && |chunks[i].payload| < Limit
  }

  /** If there's a frame and none is left at the end, then it was unpacked. */
  lemma TakeFirst(s: Bytes, frames: seq<Bytes>, rest: Bytes)
    requires AreFrames(s, frames) && s == Concat(frames) + rest && CanUnpack(s) && !CanUnpack(rest)
    ensures frames != [] && frames[0] <= s && IsFrame(s, |frames[0]|)
    ensures var t := s[|frames[0]|..]; AreFrames(t, frames[1..]) && t == Concat(frames[1..]) + rest
  {
    hide CanUnpack, IsFrame;
    assert frames != [] by {
      assert [] + rest == rest;
    }
    var f, more := frames[0], Concat(frames[1..]);
    hide AreFrames, Concat;
    assert s == f + (more + rest);
    assert s[|f|..] == more + rest;
  }

  lemma TakeFrame(p: Bytes, t: Bytes, frames: seq<Bytes>, rest: Bytes)
    requires |p| < Limit && AreFrames(Frame(p) + t, frames) && Frame(p) + t == Concat(frames) + rest && !CanUnpack(rest)
    ensures frames != [] && frames[0] == Frame(p) && MagicAt(frames[0], 0)
    ensures AreFrames(t, frames[1..]) && t == Concat(frames[1..]) + rest
  {
    var s := Frame(p) + t;
    FrameIsUnpacked(p, t);
    TakeFirst(s, frames, rest);
    assert |frames[0]| == |Frame(p)|;
    assert frames[0] == s[..|frames[0]|] == Frame(p);
    assert s[|frames[0]|..] == t;
  }

  lemma TakeGarbage(g: Bytes, p: Bytes, t: Bytes, frames: seq<Bytes>, rest: Bytes)
    requires IsGarbage(g) && g != []
    requires var s := g + (Frame(p) + t); AreFrames(s, frames) && s == Concat(frames) + rest && !CanUnpack(rest)
    ensures frames != [] && 1 <= |frames[0]| <= |g| && !MagicAt(frames[0], 0)
    ensures var s := g[|frames[0]|..] + (Frame(p) + t); AreFrames(s, frames[1..]) && s == Concat(frames[1..]) + rest
  {
    hide Frame;
    var s := g + (Frame(p) + t);
    GarbageFrame(g, p, t, 0);
    TakeFirst(s, frames, rest);
    var n := |frames[0]|;
    GarbageFrame(g, p, t, n);
    assert s[n..] == g[n..] + (Frame(p) + t);
    MagicOfPrefix(frames[0], s);
  }

  lemma MagicOfPrefix(f: Bytes, s: Bytes)
    requires f <= s
    ensures MagicAt(f, 0) ==> MagicAt(s, 0)
  {
  }

  /**
   * Every frame is recovered, in order and exactly, past any garbage which is free of the magic word, whichever way
   * the stream was unpacked until it ended.
   */
  lemma {:induction false} FramesAreRecovered(chunks: seq<Chunk>, tail: Bytes, frames: seq<Bytes>, rest: Bytes)
    requires AreChunks(chunks) && AreFrames(Stream(chunks, tail), frames)
    requires Stream(chunks, tail) == Concat(frames) + rest && !CanUnpack(rest)
    ensures FramesOf(chunks) <= InSync(frames)
    decreases |frames|
  {
    hide Frame, CanUnpack, MagicAt, IsFrame, IsGarbage;
    if chunks != [] {
      var g, p, t := chunks[0].garbage, chunks[0].payload, Stream(chunks[1..], tail);
      if g == [] {
        assert Stream(chunks, tail) == Frame(p) + t;
        TakeFrame(p, t, frames, rest);
        FramesAreRecovered(chunks[1..], tail, frames[1..], rest);
      } else {
        TakeGarbage(g, p, t, frames, rest);
        GarbageSuffix(g, |frames[0]|);
        var next := [Chunk(g[|frames[0]|..], p)] + chunks[1..];
        assert next[1..] == chunks[1..];
        FramesAreRecovered(next, tail, frames[1..], rest);
      }
    }
  }

  /** Without garbage, encoded frames are unpacked one by one, and nothing else is. */
  lemma {:induction false} EncodedFramesUnpack(chunks: seq<Chunk>, frames: seq<Bytes>, rest: Bytes)
    requires AreChunks(chunks) && (forall i :: 0 <= i < |chunks| ==> chunks[i].garbage == [])
    requires AreFrames(Stream(chunks, []), frames) && Stream(chunks, []) == Concat(frames) + rest && !CanUnpack(rest)
    ensures frames == FramesOf(chunks) && rest == []
    decreases |frames|
  {
    hide Frame, CanUnpack, MagicAt, IsFrame, IsGarbage;
    if chunks != [] {
      var p, t := chunks[0].payload, Stream(chunks[1..], []);
      assert Stream(chunks, []) == Frame(p) + t;
      TakeFrame(p, t, frames, rest);
      EncodedFramesUnpack(chunks[1..], frames[1..], rest);
      assert frames == [frames[0]] + frames[1..];
    } else {
      NoFrames(frames, rest);
    }
  }

  lemma NoFrames(frames: seq<Bytes>, rest: Bytes)
    requires AreFrames([], frames) && [] == Concat(frames) + rest
    ensures frames == [] && rest == []
  {
  }

  // ---------------------------------------------------------------------------
  // Checking a frame

  /** Unmarshal compares bytes in turn, and faults if the frame ends before they differ. */
  predicate Faults(frame: Bytes) {
    |frame| < 4 && frame == Magic[..|frame|]
  }

  datatype Checked = Fault | Desync | Payload(bytes: Bytes)

  /** Bytes are compared left to right, up to the first which differs. */
  function Unmarshal(frame: Bytes, i: nat): Checked
    requires i <= 4 && i <= |frame| && frame[..i] == Magic[..i]
    decreases 4 - i
  {
    if i == 4 then (if |frame| >= HeaderLength then Payload(frame[HeaderLength..]) else Fault)
    else if i == |frame| then Fault
    else if frame[i] != Magic[i] then Desync
    else Unmarshal(frame, i + 1)
  }

  /** Every frame which can be unpacked is checked without a fault, but for a proper prefix of the magic word. */
  lemma FaultsJustIf(s: Bytes, n: nat)
    requires CanUnpack(s) && IsFrame(s, n)
    ensures n <= |s| && (Unmarshal(s[..n], 0) == Fault <==> Faults(s[..n]))
    ensures MagicAt(s, 0) ==> Unmarshal(s[..n], 0) == Payload(s[HeaderLength..n])
  {
    var f := s[..n];
    assert f[..0] == Magic[..0];
    if MagicAt(s, 0) {
      assert n >= HeaderLength;
      assert f[..4] == Magic[..4] by {
        assert forall i :: 0 <= i < 4 ==> f[i] == Magic[i];
      }
      hide CanUnpack, IsFrame, Unmarshal, MagicAt;
      ComparesAll(f, 0);
      assert f[HeaderLength..] == s[HeaderLength..n];
    } else {
      hide CanUnpack, Unmarshal;
      assert |f| < 4 || f[..4] != Magic by {
        assert |f| >= 4 ==> forall i :: 0 <= i < 4 ==> f[..4][i] == s[i];
      }
      ComparesSome(f, 0);
    }
  }

  lemma {:induction false} ComparesAll(f: Bytes, i: nat)
    requires i <= 4 <= |f| && f[..4] == Magic[..4] && |f| >= HeaderLength
    ensures f[..i] == Magic[..i] && Unmarshal(f, i) == Payload(f[HeaderLength..])
    decreases 4 - i
  {
    assert f[..i] == f[..4][..i] == Magic[..4][..i] == Magic[..i];
    if i < 4 {
      assert f[i] == f[..4][i];
      ComparesAll(f, i + 1);
    }
  }

  lemma {:induction false} ComparesSome(f: Bytes, i: nat)
    requires i <= 4 && i <= |f| && f[..i] == Magic[..i] && (|f| < 4 || f[..4] != Magic)
    ensures Unmarshal(f, i) == Fault <==> Faults(f)
    decreases 4 - i
  {
    if i < 4 && i < |f| {
      if f[i] == Magic[i] {
        assert f[..i + 1] == f[..i] + [f[i]] && Magic[..i + 1] == Magic[..i] + [Magic[i]];
        ComparesSome(f, i + 1);
      }
    } else if i == |f| {
      assert f[..i] == f;
    }
  }

  /** Such a prefix may be unpacked: a stray first byte of the magic word, before a frame. */
  lemma StrayByteFaults(p: Bytes, t: Bytes)
    ensures var s := [0x66] + (Frame(p) + t);
      && CanUnpack(s) && IsFrame(s, 1) && Unmarshal(s[..1], 0) == Fault
  {
    var g: Bytes := [0x66];
    var s := g + (Frame(p) + t);
    GarbageFrame(g, p, t, 1);
    GarbageEndsAtFrame(g, p, t, 0);
    assert s[..1] == g;
  }
}
