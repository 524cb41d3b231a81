/**
 The multiplexed log stream format: every write to a stream is framed as an
 eight-byte header (stream number, three zero bytes, big-endian payload length)
 followed by the payload.  `Mux` is what a sequence of framed writes puts on the
 wire; `Demux` is the reference meaning of a whole byte stream.
 */
module Frames {

  type byte = b: int | 0 <= b < 256

  const STDERR: byte := 2
  const SYSTEMERR: byte := 3

  const HEADER_LEN: nat := 8
  const SIZE_INDEX: nat := 4
  const STARTING_BUF_LEN: nat := 32 * 1024 + HEADER_LEN + 1
  const TWO_TO_THE_32: nat := 0x1_0000_0000

  datatype Frame = Frame(stream: byte, payload: seq<byte>)

  /** How a stream ends: cleanly (possibly inside a frame), at a header with an unknown stream, or at a daemon error. */
  datatype Fault = Clean | UnknownStream(id: byte) | Daemon(message: seq<byte>)

  datatype Demuxed = Demuxed(frames: seq<Frame>, fault: Fault)

  // ---------- header ----------

  function PutUint32(n: nat): (b: seq<byte>)
    ensures |b| == 4
  {
    [n / 0x100_0000 % 256, n / 0x1_0000 % 256, n / 0x100 % 256, n % 256]
  }

  function Uint32(b: seq<byte>): nat
    requires |b| == 4
  {
    (b[0] as int) * 0x100_0000 + (b[1] as int) * 0x1_0000 + (b[2] as int) * 0x100 + b[3]
  }

  /** The length field carries the length modulo 2^32, which is Go's `uint32(len(p))`. */
  lemma LengthFieldTruncates(n: nat)
    ensures Uint32(PutUint32(n)) == n % TWO_TO_THE_32
  {
    var a := n / 0x100;
    var b := a / 0x100;
    var c := b / 0x100;
    Digits(n, a, b, c);
    Remainder(n, c / 0x100, Uint32(PutUint32(n)));
  }

  /** Dividing by 256 again and again. */
  lemma Digits(n: nat, a: nat, b: nat, c: nat)
    requires a == n / 0x100 && b == a / 0x100 && c == b / 0x100
    ensures b == n / 0x1_0000 && c == n / 0x100_0000
    ensures n == c / 0x100 * TWO_TO_THE_32
      + (c % 0x100 * 0x100_0000 + b % 0x100 * 0x1_0000 + a % 0x100 * 0x100 + n % 0x100)
  {
    assert n == a * 0x100 + n % 0x100 && a == b * 0x100 + a % 0x100;
    assert b == c * 0x100 + b % 0x100 && c == c / 0x100 * 0x100 + c % 0x100;
  }

  lemma Remainder(n: nat, q: nat, r: nat)
    requires n == q * TWO_TO_THE_32 + r && r < TWO_TO_THE_32
    ensures n % TWO_TO_THE_32 == r
  {
  }

  function SizeField(s: seq<byte>): nat
    requires |s| >= HEADER_LEN
  {
    Uint32(s[SIZE_INDEX..SIZE_INDEX + 4])
  }

  // ---------- printer and parser ----------

  function Encode(f: Frame): seq<byte> {
    [f.stream, 0, 0, 0] + PutUint32(|f.payload|) + f.payload
  }

  function Mux(frames: seq<Frame>): seq<byte> {
    if frames == [] then [] else Encode(frames[0]) + Mux(frames[1..])
  }

  function Demux(s: seq<byte>): Demuxed {
    if |s| < HEADER_LEN then Demuxed([], Clean)
    else if s[0] > SYSTEMERR then Demuxed([], UnknownStream(s[0]))
    else
      var end := HEADER_LEN + SizeField(s);
      if |s| < end then Demuxed([], Clean)
      else if s[0] == SYSTEMERR then Demuxed([], Daemon(s[HEADER_LEN..end]))
      else
        var rest := Demux(s[end..]);
        Demuxed([Frame(s[0], s[HEADER_LEN..end])] + rest.frames, rest.fault)
  }

  /** The largest frame size announced by any header that the parser reaches. */
  function LargestFrame(s: seq<byte>): nat {
    if |s| < HEADER_LEN || s[0] > SYSTEMERR then 0
    else
      var size := SizeField(s);
      if |s| < HEADER_LEN + size || s[0] == SYSTEMERR then size
      else
        var rest := LargestFrame(s[HEADER_LEN + size..]);
        if rest < size then size else rest
  }

  // ---------- what the destinations should receive ----------

  function TotalLength(frames: seq<Frame>): nat {
    if frames == [] then 0 else |frames[0].payload| + TotalLength(frames[1..])
  }

  /** Whether a frame goes to a destination that serves as stdout and/or as stderr. */
  predicate GoesTo(f: Frame, asOut: bool, asErr: bool) {
    if f.stream == STDERR then asErr else asOut
  }

  /** The payloads, in order, of the frames for a destination that serves as stdout and/or as stderr. */
  function Routed(frames: seq<Frame>, asOut: bool, asErr: bool): seq<byte> {
    if frames == [] then []
    else (if GoesTo(frames[0], asOut, asErr) then frames[0].payload else []) + Routed(frames[1..], asOut, asErr)
  }

  lemma {:induction false} RoutedSnoc(frames: seq<Frame>, f: Frame, asOut: bool, asErr: bool)
    ensures Routed(frames + [f], asOut, asErr)
         == Routed(frames, asOut, asErr) + (if GoesTo(f, asOut, asErr) then f.payload else [])
  {
    if frames == [] {
    } else {
      assert (frames + [f])[1..] == frames[1..] + [f];
      RoutedSnoc(frames[1..], f, asOut, asErr);
    }
  }

  lemma {:induction false} TotalLengthSnoc(frames: seq<Frame>, f: Frame)
    ensures TotalLength(frames + [f]) == TotalLength(frames) + |f.payload|
  {
    if frames == [] {
    } else {
      assert (frames + [f])[1..] == frames[1..] + [f];
      TotalLengthSnoc(frames[1..], f);
    }
  }

  /** A destination shared by both streams receives every byte counted; separate ones split the count between them. */
  lemma {:induction false} RoutingConservesBytes(frames: seq<Frame>)
    ensures |Routed(frames, true, true)| == TotalLength(frames)
    ensures |Routed(frames, true, false)| + |Routed(frames, false, true)| == TotalLength(frames)
  {
    if frames != [] {
      RoutingConservesBytes(frames[1..]);
    }
  }

  // ---------- the format in numbers ----------

  /** The payloads, in order, of the frames of some streams. */
  function Payloads(frames: seq<Frame>, streams: set<int>): seq<byte> {
    if frames == [] then []
    else (if frames[0].stream as int in streams then frames[0].payload else []) + Payloads(frames[1..], streams)
  }

  /** Streams 0 and 1 go to standard output and stream 2 to standard error; one destination for both gets all three. */
  lemma {:induction false} RoutedByNumber(frames: seq<Frame>)
    requires forall f | f in frames :: f.stream <= 2
    ensures Routed(frames, true, false) == Payloads(frames, {0, 1})
    ensures Routed(frames, false, true) == Payloads(frames, {2})
    ensures Routed(frames, true, true) == Payloads(frames, {0, 1, 2})
  {
    if frames != [] {
      RoutedByNumber(frames[1..]);
    }
  }

  /** The bytes on the wire: stream, three zeros, and the length, most significant byte first. */
  lemma WireFormat(f: Frame)
    ensures var n := |f.payload|;
      n < 4294967296 ==>
        Encode(f) == [f.stream, 0, 0, 0, n / 16777216, n / 65536 % 256, n / 256 % 256, n % 256] + f.payload
  {
  }

  /** The four bytes after the fourth as a number, most significant byte first. */
  function Announced(s: seq<byte>): nat
    requires 8 <= |s|
  {
    s[4] as int * 16777216 + s[5] as int * 65536 + s[6] as int * 256 + s[7]
  }

  /** What stands at the front when parsing ends: an unknown stream, an error of the daemon, or not a whole frame. */
  predicate Ends(s: seq<byte>, fault: Fault) {
    match fault
    case UnknownStream(id) => 8 <= |s| && s[0] == id >= 4
    case Daemon(message) =>
      8 + |message| <= |s| && s[0] == 3 && Announced(s) == |message| && s[8..8 + |message|] == message
    case Clean => 8 <= |s| ==> s[0] <= 3 && 8 + Announced(s) > |s|
  }

  /** A whole frame of stream 0, 1 or 2 stands at the front. */
  predicate Stands(s: seq<byte>, f: Frame) {
    && 8 + |f.payload| <= |s| && s[0] == f.stream <= 2
    && Announced(s) == |f.payload| && s[8..8 + |f.payload|] == f.payload
  }

  lemma AnnouncedFirst(s: seq<byte>)
    requires |s| >= 8
    ensures SizeField(s) == Announced(s)
  {
  }

  /** No whole frame of stream 0, 1 or 2 stands at the front. */
  predicate Frameless(s: seq<byte>) {
    |s| < 8 || s[0] > 2 || |s| < 8 + Announced(s)
  }

  lemma FramelessEnds(s: seq<byte>, d: Demuxed)
    requires Frameless(s) && d == Demux(s)
    ensures d.frames == [] && Ends(s, d.fault)
  {
    if |s| >= 8 {
      AnnouncedFirst(s);
    }
  }

  lemma FrontStands(s: seq<byte>)
    requires !Frameless(s)
    ensures Stands(s, Frame(s[0], s[8..8 + Announced(s)])) && SizeField(s) == Announced(s)
  {
  }

  /** These frames stand back to back, and then comes what ends the stream. */
  predicate LaidOut(s: seq<byte>, frames: seq<Frame>, fault: Fault)
    decreases |frames|
  {
    if frames == [] then Ends(s, fault)
    else Stands(s, frames[0]) && LaidOut(s[8 + |frames[0].payload|..], frames[1..], fault)
  }

  lemma LaidOutBefore(s: seq<byte>, f: Frame, rest: Demuxed, d: Demuxed)
    requires Stands(s, f) && LaidOut(s[8 + |f.payload|..], rest.frames, rest.fault)
    requires d == Demuxed([f] + rest.frames, rest.fault)
    ensures LaidOut(s, d.frames, d.fault)
  {
    assert d.frames[1..] == rest.frames;
  }

  /**
   Parsing in bytes: the frames stand back to back, each an eight-byte header of stream 0, 1 or 2 and as many bytes as
   it announces; and behind the last one is what ends the stream.
   */
  lemma {:induction false} ParsedByNumber(s: seq<byte>, d: Demuxed)
    requires d == Demux(s)
    ensures LaidOut(s, d.frames, d.fault)
    decreases |s|
  {
    if Frameless(s) {
      FramelessEnds(s, d);
    } else {
      var end := 8 + Announced(s);
      var f, rest := Frame(s[0], s[8..end]), Demux(s[end..]);
      FrontStands(s);
      DemuxFirst(s, Announced(s));
      ParsedByNumber(s[end..], rest);
      LaidOutBefore(s, f, rest, d);
    }
  }

  /** What ends the stream stands behind as many eight-byte headers as there are frames, and their payloads. */
  predicate EndsBehind(s: seq<byte>, frames: seq<Frame>, fault: Fault) {
    var end := 8 * |frames| + TotalLength(frames);
    end <= |s| && Ends(s[end..], fault)
  }

  /** So only streams 0, 1 and 2 are delivered, and the end is where their lengths put it. */
  lemma {:induction false} LaidOutEnds(s: seq<byte>, frames: seq<Frame>, fault: Fault)
    requires LaidOut(s, frames, fault)
    ensures forall f | f in frames :: f.stream <= 2
    ensures EndsBehind(s, frames, fault)
    decreases |frames|
  {
    if frames == [] {
      assert s[0..] == s;
    } else {
      var first, rest := 8 + |frames[0].payload|, frames[1..];
      LaidOutEnds(s[first..], rest, fault);
      assert s[first..][8 * |rest| + TotalLength(rest)..] == s[8 * |frames| + TotalLength(frames)..];
      assert frames == [frames[0]] + rest;
    }
  }

  // ---------- round trip ----------

  /** A frame survives the trip exactly when its stream is readable and its length fits the 32-bit field. */
  predicate Representable(f: Frame) {
    f.stream < SYSTEMERR && |f.payload| < TWO_TO_THE_32
  }

  lemma EncodedParts(f: Frame, tail: seq<byte>)
    ensures var s := Encode(f) + tail;
      && |s| >= HEADER_LEN + |f.payload| && s[0] == f.stream
      && s[SIZE_INDEX..SIZE_INDEX + 4] == PutUint32(|f.payload|)
      && s[HEADER_LEN..HEADER_LEN + |f.payload|] == f.payload
      && s[HEADER_LEN + |f.payload|..] == tail
  {
  }

  /** What parsing sees at the front of an encoded frame followed by anything. */
  lemma EncodedHeader(f: Frame, tail: seq<byte>)
    ensures var s := Encode(f) + tail;
      && |s| >= HEADER_LEN + |f.payload|
      && s[0] == f.stream
      && SizeField(s) == |f.payload| % TWO_TO_THE_32
      && s[HEADER_LEN..HEADER_LEN + SizeField(s)] == f.payload[..SizeField(s)]
      && s[HEADER_LEN + |f.payload|..] == tail
  {
    var s, n := Encode(f) + tail, |f.payload|;
    EncodedParts(f, tail);
    LengthFieldTruncates(n);
    Front(s, HEADER_LEN, n, n % TWO_TO_THE_32);
  }

  lemma Front(s: seq<byte>, from: nat, n: nat, m: nat)
    requires from + n <= |s| && m <= n
    ensures s[from..from + m] == s[from..from + n][..m]
  {
  }

  /** Parsing an encoded frame yields that frame and then the meaning of the rest. */
  lemma DemuxEncoded(f: Frame, tail: seq<byte>)
    requires Representable(f)
    ensures Demux(Encode(f) + tail) == Demuxed([f] + Demux(tail).frames, Demux(tail).fault)
    ensures LargestFrame(Encode(f) + tail)
      == if LargestFrame(tail) < |f.payload| then |f.payload| else LargestFrame(tail)
  {
    EncodedHeader(f, tail);
    assert f.payload[..|f.payload|] == f.payload;
    DemuxFirst(Encode(f) + tail, |f.payload|);
  }

  /** Parsing takes a complete readable frame off the front. */
  lemma DemuxFirst(s: seq<byte>, size: nat)
    requires |s| >= HEADER_LEN + size && s[0] < SYSTEMERR && SizeField(s) == size
    ensures var rest := s[HEADER_LEN + size..];
      && Demux(s) == Demuxed([Frame(s[0], s[HEADER_LEN..HEADER_LEN + size])] + Demux(rest).frames, Demux(rest).fault)
      && LargestFrame(s) == if LargestFrame(rest) < size then size else LargestFrame(rest)
  {
  }

  /** Framed writes are recovered, frame by frame and in order, if and only if each of them is representable. */
  lemma {:induction false} RoundTrip(frames: seq<Frame>)
    ensures Demux(Mux(frames)) == Demuxed(frames, Clean) <==> forall f | f in frames :: Representable(f)
  {
    if frames == [] {
    } else {
      var f, rest := frames[0], frames[1..];
      RoundTrip(rest);
      assert frames == [f] + rest;
      if Representable(f) {
        DemuxEncoded(f, Mux(rest));
        var d := Demux(Mux(frames));
        if d == Demuxed(frames, Clean) {
          assert d.frames[1..] == Demux(Mux(rest)).frames;
          assert frames[1..] == rest;
        }
      } else {
        EncodedHeader(f, Mux(rest));
        var d := Demux(Mux(frames));
        if f.stream < SYSTEMERR {
          assert d.frames[0].payload == f.payload[..|f.payload| % TWO_TO_THE_32];
          assert |d.frames[0].payload| < |frames[0].payload|;
        }
        assert d != Demuxed(frames, Clean);
        assert f in frames;
      }
    }
  }

  /** One more framed write is one more frame on the wire. */
  lemma {:induction false} MuxSnoc(frames: seq<Frame>, f: Frame)
    ensures Mux(frames + [f]) == Mux(frames) + Encode(f)
  {
    if frames == [] {
      assert [f][1..] == [];
      assert Encode(f) + [] == Encode(f);
    } else {
      assert (frames + [f])[1..] == frames[1..] + [f];
      MuxSnoc(frames[1..], f);
    }
  }

  /** The buffer bound of the demultiplexer, read off the frames that were written. */
  lemma {:induction false} LargestFrameOfMux(frames: seq<Frame>, bound: nat)
    requires forall f | f in frames :: Representable(f)
    ensures LargestFrame(Mux(frames)) <= bound <==> forall f | f in frames :: |f.payload| <= bound
  {
    if frames != [] {
      LargestFrameOfMux(frames[1..], bound);
      DemuxEncoded(frames[0], Mux(frames[1..]));
      assert frames == [frames[0]] + frames[1..];
    }
  }

  // ---------- cutting a stream short ----------

  /** A prefix with the whole header has the same header. */
  lemma HeaderOfPrefix(s: seq<byte>, k: nat)
    requires HEADER_LEN <= k <= |s|
    ensures s[..k][0] == s[0] && SizeField(s[..k]) == SizeField(s)
  {
    assert s[..k][SIZE_INDEX..SIZE_INDEX + 4] == s[SIZE_INDEX..SIZE_INDEX + 4];
  }

  /** A prefix with the whole first frame has the same first frame, and then a prefix of the rest. */
  lemma FrameOfPrefix(s: seq<byte>, k: nat, end: nat)
    requires HEADER_LEN <= end <= k <= |s|
    ensures s[..k][HEADER_LEN..end] == s[HEADER_LEN..end] && s[..k][end..] == s[end..][..k - end]
  {
  }

  predicate Shortened(part: Demuxed, whole: Demuxed) {
    part.frames <= whole.frames && (part.fault == Clean || part == whole)
  }

  lemma ShortenedByOne(f: Frame, part: Demuxed, whole: Demuxed)
    requires Shortened(part, whole)
    ensures Shortened(Demuxed([f] + part.frames, part.fault), Demuxed([f] + whole.frames, whole.fault))
  {
  }

  /** Whether a complete readable frame is at the front. */
  predicate ReadableFront(s: seq<byte>) {
    |s| >= HEADER_LEN && s[0] < SYSTEMERR && HEADER_LEN + SizeField(s) <= |s|
  }

  /** Without one, nothing is read. */
  lemma NothingReadable(s: seq<byte>, k: nat)
    requires k <= |s| && !ReadableFront(s[..k])
    ensures Shortened(Demux(s[..k]), Demux(s))
  {
    if HEADER_LEN <= k {
      HeaderOfPrefix(s, k);
      if s[0] == SYSTEMERR && HEADER_LEN + SizeField(s) <= k {
        FrameOfPrefix(s, k, HEADER_LEN + SizeField(s));
      }
    }
  }

  /**
   Losing the end of a stream only loses frames at the end: what remains is a prefix, and a fault the same or gone.
   */
  lemma {:induction false} DemuxOfPrefix(s: seq<byte>, k: nat)
    requires k <= |s|
    ensures Demux(s[..k]).frames <= Demux(s).frames
    ensures Demux(s[..k]).fault == Clean || Demux(s[..k]) == Demux(s)
    decreases |s|
  {
    if !ReadableFront(s[..k]) {
      NothingReadable(s, k);
    } else {
      HeaderOfPrefix(s, k);
      var end := HEADER_LEN + SizeField(s);
      FrameOfPrefix(s, k, end);
      DemuxFirst(s, SizeField(s));
      DemuxFirst(s[..k], SizeField(s));
      DemuxOfPrefix(s[end..], k - end);
      ShortenedByOne(Frame(s[0], s[HEADER_LEN..end]), Demux(s[end..][..k - end]), Demux(s[end..]));
    }
  }

  // ---------- reading frame after frame ----------

  lemma SliceOfSlice<T>(s: seq<T>, from: nat, q: nat, a: nat, b: nat)
    requires from <= q <= |s| && a <= b <= q - from
    ensures s[from..q][a..b] == s[from + a..from + b]
  {
    forall i | 0 <= i < b - a ensures s[from..q][a..b][i] == s[from + a..from + b][i] {
    }
  }

  /** Whether a complete readable frame starts at `from`. */
  predicate FrameAt(s: seq<byte>, from: nat) {
    from + HEADER_LEN <= |s| && s[from] < SYSTEMERR && FrameEnd(s, from) <= |s|
  }

  function FrameEnd(s: seq<byte>, from: nat): nat
    requires from + HEADER_LEN <= |s|
  {
    from + HEADER_LEN + Uint32(s[from + SIZE_INDEX..from + SIZE_INDEX + 4])
  }

  /** The bytes of `s` between `from` and `to` are exactly the given readable frames. */
  ghost predicate Consumes(s: seq<byte>, from: nat, to: nat, frames: seq<Frame>)
    decreases |frames|
  {
    if frames == [] then from == to
    else
      && FrameAt(s, from)
      && frames[0] == Frame(s[from], s[from + HEADER_LEN..FrameEnd(s, from)])
      && FrameEnd(s, from) <= to
      && Consumes(s, FrameEnd(s, from), to, frames[1..])
  }

  /** A complete readable frame is the first frame of the meaning of what starts with it. */
  lemma DemuxFront(s: seq<byte>, from: nat, q: nat)
    requires FrameAt(s, from) && FrameEnd(s, from) <= q <= |s|
    ensures var end := FrameEnd(s, from);
      && Demux(s[from..q])
          == Demuxed([Frame(s[from], s[from + HEADER_LEN..end])] + Demux(s[end..q]).frames, Demux(s[end..q]).fault)
      && LargestFrame(s[end..q]) <= LargestFrame(s[from..q])
  {
    var p, end := s[from..q], FrameEnd(s, from);
    SliceOfSlice(s, from, q, SIZE_INDEX, SIZE_INDEX + 4);
    SliceOfSlice(s, from, q, HEADER_LEN, end - from);
    assert p[end - from..] == s[end..q];
  }

  lemma AfterFirst(whole: Demuxed, rest: Demuxed, tail: Demuxed, frames: seq<Frame>)
    requires frames != []
    requires whole == Demuxed([frames[0]] + rest.frames, rest.fault)
    requires rest == Demuxed(frames[1..] + tail.frames, tail.fault)
    ensures whole == Demuxed(frames + tail.frames, tail.fault)
  {
  }

  /** Once some frames are consumed, the meaning of any longer part of the stream is those frames and then the rest. */
  lemma {:induction false} DemuxAfter(s: seq<byte>, from: nat, to: nat, frames: seq<Frame>, q: nat)
    requires Consumes(s, from, to, frames) && from <= to <= q <= |s|
    ensures Demux(s[from..q]) == Demuxed(frames + Demux(s[to..q]).frames, Demux(s[to..q]).fault)
    ensures LargestFrame(s[to..q]) <= LargestFrame(s[from..q])
    decreases |frames|
  {
    if frames == [] {
    } else {
      var end := FrameEnd(s, from);
      DemuxFront(s, from, q);
      DemuxAfter(s, end, to, frames[1..], q);
      AfterFirst(Demux(s[from..q]), Demux(s[end..q]), Demux(s[to..q]), frames);
    }
  }

  lemma {:induction false} ConsumeNext(s: seq<byte>, from: nat, to: nat, frames: seq<Frame>)
    requires Consumes(s, from, to, frames) && FrameAt(s, to)
    ensures Consumes(s, from, FrameEnd(s, to), frames + [Frame(s[to], s[to + HEADER_LEN..FrameEnd(s, to)])])
    decreases |frames|
  {
    var f := Frame(s[to], s[to + HEADER_LEN..FrameEnd(s, to)]);
    if frames == [] {
      assert [f][1..] == [];
    } else {
      ConsumeNext(s, FrameEnd(s, from), to, frames[1..]);
      assert (frames + [f])[1..] == frames[1..] + [f];
    }
  }
}
