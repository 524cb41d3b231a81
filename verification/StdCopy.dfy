/**
 The frame writer and the demultiplexer.  The source chooses how many bytes each
 read returns, may report the end of the stream together with the last bytes or
 afterwards, and may fail; the destinations may be one object or two and may fail.
 */
module StdCopy {
  import opened Frames

  datatype ReadStatus = Ready | EOF | ReadFailed(code: int)
  datatype WriteStatus = Written | WriteFailed(code: int)

  datatype CopyError =
    | Success
    | SourceError(code: int)
    | UnrecognizedHeader(id: byte)
    | DaemonError(message: seq<byte>)
    | DestinationError(code: int)
    | ShortWrite

  /** An `io.Reader` over a fixed byte stream. */
  class Source {
    const data: seq<byte>
    const faulty: bool  // whether a read may fail
    var pos: nat
    var idle: nat  // how often a read may still return no byte and no error
    ghost var failedAt: nat  // the position before the read that failed last

    constructor (data: seq<byte>, faulty: bool, idle: nat)
      ensures this.data == data && this.faulty == faulty && this.idle == idle && pos == 0
    {
      this.data, this.faulty, this.idle, pos, failedAt := data, faulty, idle, 0, 0;
    }

    /** Fills `buf` from `from` on; the part of `buf` behind the bytes returned may be used as scratch space. */
    method Read(buf: array<byte>, from: nat) returns (n: nat, status: ReadStatus)
      requires pos <= |data| && from < buf.Length
      modifies this, buf
      ensures pos == old(pos) + n <= |data| && from + n <= buf.Length
      ensures buf[..from] == old(buf[..from]) && buf[from..from + n] == data[old(pos)..pos]
      ensures status == EOF ==> pos == |data|
      ensures status.ReadFailed? ==> faulty && failedAt == old(pos)
      ensures idle <= old(idle) && (status == Ready && n == 0 ==> idle < old(idle))
    {
      n :| n <= |data| - pos && n <= buf.Length - from;
      if n == 0 && idle == 0 && pos < |data| {
        n := 1;
      }
      var scratch: byte :| true;
      ghost var before := buf[..];
      forall i | from + n <= i < buf.Length {
        buf[i] := scratch;
      }
      var got := data[pos..pos + n];
      forall i | 0 <= i < n {
        buf[from + i] := got[i];
      }
      assert buf[..from] == before[..from];
      assert forall i | 0 <= i < n :: buf[from..from + n][i] == buf[from + i] == got[i];
      assert buf[from..from + n] == got;
      var early: bool, fails: bool, code: int := *, *, *;
      if faulty && fails {
        status, failedAt := ReadFailed(code), pos;
        pos := pos + n;
        return;
      }
      pos := pos + n;
      if pos == |data| && (early || (n == 0 && idle == 0)) {
        status := EOF;
      } else {
        status := Ready;
        if n == 0 {
          idle := idle - 1;
        }
      }
    }
  }

  /** An `io.Writer` that records what it accepted. */
  class Sink {
    var contents: seq<byte>
    const faulty: bool  // whether a write may fail or be short

    constructor (faulty: bool)
      ensures this.faulty == faulty && contents == []
    {
      this.faulty, contents := faulty, [];
    }

    method Write(p: seq<byte>) returns (n: nat, status: WriteStatus)
      modifies this
      ensures n <= |p| && contents == old(contents) + p[..n]
      ensures !faulty ==> n == |p| && status == Written
    {
      n, status := |p|, Written;
      if faulty {
        var fails: bool, code: int := *, *;
        n :| n <= |p|;
        status := if fails then WriteFailed(code) else Written;
      }
      contents := contents + p[..n];
    }
  }

  /** A slice argument that may be nil, which is not the same as empty. */
  datatype Slice = Nil | Bytes(bytes: seq<byte>)

  datatype FramedStatus = Framed | NotInstantiated | Failed(code: int)

  /** Frames everything written to it for one stream. */
  class StdWriter {
    const writer: Sink?
    const prefix: byte

    constructor (writer: Sink?, prefix: byte)
      ensures this.writer == writer && this.prefix == prefix
    {
      this.writer, this.prefix := writer, prefix;
    }

    /**
     Puts the frame of `p` on the wire, or an initial part of it when the underlying writer stops early;
     `n` counts the payload bytes of `p` that got through.
     */
    method Write(p: Slice) returns (n: nat, status: FramedStatus)
      modifies writer
      ensures writer == null ==> n == 0 && status == NotInstantiated
      ensures writer != null && p == Nil ==> n == 0 && status == Framed && unchanged(writer)
      ensures writer != null && p != Nil ==>
        && n <= |p.bytes|
        && var frame := Encode(Frame(prefix, p.bytes));
        && old(writer.contents) <= writer.contents <= old(writer.contents) + frame
        && (n > 0 ==> |writer.contents| == |old(writer.contents)| + HEADER_LEN + n)
        && (n == 0 ==> |writer.contents| <= |old(writer.contents)| + HEADER_LEN)
        && (!writer.faulty ==> n == |p.bytes| && status == Framed && writer.contents == old(writer.contents) + frame)
    {
      if writer == null {
        return 0, NotInstantiated;
      }
      if p == Nil {
        return 0, Framed;
      }
      var header := [prefix, 0, 0, 0] + PutUint32(|p.bytes|);
      var buf := header + p.bytes;
      assert buf == Encode(Frame(prefix, p.bytes));
      var k, ew := writer.Write(buf);
      n := if k < HEADER_LEN then 0 else k - HEADER_LEN;
      status := if ew == Written then Framed else Failed(ew.code);
    }
  }

  datatype FillStatus = Filled | Ended | FillFailed(code: int)

  /** The first `nr` bytes of the buffer are what the source has delivered from `at` on. */
  ghost predicate Buffered(src: Source, at: nat, nr: nat, buf: array<byte>)
    reads src, buf
  {
    nr <= buf.Length && at + nr == src.pos <= |src.data| && buf[..nr] == src.data[at..src.pos]
  }

  /** Reads until at least `want` bytes are in the buffer. */
  method Fill(src: Source, buf: array<byte>, nr0: nat, want: nat, ghost at: nat) returns (nr: nat, status: FillStatus)
    requires want <= buf.Length && Buffered(src, at, nr0, buf)
    modifies src, buf
    ensures nr0 <= nr && Buffered(src, at, nr, buf)
    ensures status == Filled ==> want <= nr
    ensures status == Ended ==> nr < want && src.pos == |src.data|
    ensures status.FillFailed? ==> src.faulty && at + nr0 <= src.failedAt < at + want && src.failedAt <= src.pos
  {
    nr := nr0;
    while nr < want
      invariant nr0 <= nr && Buffered(src, at, nr, buf)
      decreases want - nr, src.idle
    {
      ghost var pos := src.pos;
      ghost var before := buf[..nr];
      var n, er := src.Read(buf, nr);
      assert buf[..nr + n] == before + buf[nr..nr + n];
      assert src.data[at..pos] + src.data[pos..src.pos] == src.data[at..src.pos];
      nr := nr + n;
      if er == EOF {
        return nr, if nr < want then Ended else Filled;
      }
      if er.ReadFailed? {
        return nr, FillFailed(er.code);
      }
    }
    return nr, Filled;
  }

  /** Extends the buffer, keeping its bytes. */
  method Grow(src: Source, buf: array<byte>, nr: nat, length: nat, ghost at: nat) returns (bigger: array<byte>)
    requires Buffered(src, at, nr, buf) && buf.Length <= length
    ensures fresh(bigger) && bigger.Length == length && Buffered(src, at, nr, bigger)
  {
    bigger := new byte[length];
    forall i | 0 <= i < buf.Length {
      bigger[i] := buf[i];
    }
    assert bigger[..nr] == buf[..nr];
  }

  function ExpectedError(fault: Fault): CopyError {
    match fault
    case Clean => Success
    case UnknownStream(id) => UnrecognizedHeader(id)
    case Daemon(message) => DaemonError(message)
  }

  /** A destination stopped at the first frame not delivered, having taken the part `torn` of it. */
  ghost predicate StoppedAt(frames: seq<Frame>, delivered: seq<Frame>, torn: seq<Frame>) {
    && delivered < frames && |torn| == 1
    && torn[0].stream == frames[|delivered|].stream && torn[0].payload <= frames[|delivered|].payload
  }

  /**
   The result of copying the stream from `base` on, against its meaning: everything delivered and the fault reported,
   or everything that was complete before a read failed, or everything before the frame at which a destination stopped.
   */
  ghost predicate Accounts(src: Source, base: nat, err: CopyError, delivered: seq<Frame>, torn: seq<Frame>)
    reads src
  {
    base <= src.pos <= |src.data| && Tells(src, base, err, delivered, torn, Demux(src.data[base..]))
  }

  /** The result against what the stream means, `parsed`. */
  ghost predicate Tells(src: Source, base: nat, err: CopyError, delivered: seq<Frame>, torn: seq<Frame>,
                        parsed: Demuxed)
    requires base <= src.pos <= |src.data|
    reads src
  {
    match err
    case SourceError(_) =>
      && src.faulty && torn == [] && base <= src.failedAt <= src.pos
      && Demux(src.data[base..src.failedAt]) == Demuxed(delivered, Clean)
    case DestinationError(_) => StoppedAt(parsed.frames, delivered, torn)
    case ShortWrite => StoppedAt(parsed.frames, delivered, torn) && torn[0] != parsed.frames[|delivered|]
    case _ =>
      && delivered == parsed.frames && torn == [] && err == ExpectedError(parsed.fault)
      && (err == Success ==> src.pos == |src.data|)
  }

  /** What looking for the next frame in the stream comes to. */
  datatype Next =
    | Complete(stream: byte, payload: seq<byte>)  // a frame of a known stream is at the front of the buffer
    | EndOfInput
    | BadHeader(id: byte)
    | ReadError(code: int)

  /** A frame of a known stream, possibly a daemon error, starts at `at`. */
  predicate KnownFrame(s: seq<byte>, at: nat, stream: byte, payload: seq<byte>) {
    && at + HEADER_LEN + |payload| <= |s| && s[at] == stream <= SYSTEMERR
    && FrameEnd(s, at) == at + HEADER_LEN + |payload|
    && payload == s[at + HEADER_LEN..FrameEnd(s, at)]
  }

  lemma FrameInBuffer(s: seq<byte>, at: nat, held: seq<byte>, end: nat)
    requires at + |held| <= |s| && held == s[at..at + |held|] && HEADER_LEN <= end <= |held|
    requires held[0] <= SYSTEMERR && FrameEnd(s, at) == at + end
    ensures KnownFrame(s, at, held[0], held[HEADER_LEN..end])
  {
  }

  /** What the outcome says about the stream from `at` on, where the buffer begins. */
  ghost predicate Explains(src: Source, at: nat, nr: nat, buf: array<byte>, next: Next)
    reads src, buf
  {
    && Buffered(src, at, nr, buf)
    && match next
       case Complete(stream, payload) => HEADER_LEN + |payload| <= nr && KnownFrame(src.data, at, stream, payload)
       case EndOfInput => src.pos == |src.data| && Demux(src.data[at..]) == Demuxed([], Clean)
       case BadHeader(id) => Demux(src.data[at..]) == Demuxed([], UnknownStream(id))
       case ReadError(_) =>
         && src.faulty && at <= src.failedAt <= src.pos
         && Demux(src.data[at..src.failedAt]) == Demuxed([], Clean)
  }

  /** A complete header announces its frame. */
  lemma LargestFrameAt(s: seq<byte>, at: nat)
    requires at + HEADER_LEN <= |s| && s[at] <= SYSTEMERR
    ensures FrameEnd(s, at) <= at + HEADER_LEN + LargestFrame(s[at..])
  {
  }

  /** An incomplete frame means nothing yet. */
  lemma IncompleteFrame(s: seq<byte>, at: nat, q: nat)
    requires at + HEADER_LEN <= |s| && at <= q <= |s| && s[at] <= SYSTEMERR && q < FrameEnd(s, at)
    ensures Demux(s[at..q]) == Demuxed([], Clean)
  {
    if at + HEADER_LEN <= q {
      SliceOfSlice(s, at, q, SIZE_INDEX, SIZE_INDEX + 4);
    }
  }

  function Interruption(status: FillStatus): Next
    requires status != Filled
  {
    if status == Ended then EndOfInput else ReadError(status.code)
  }

  /** A source that stops before the header is complete, or before the announced frame is, leaves nothing to pass on. */
  lemma CutShort(src: Source, at: nat, nr: nat, buf: array<byte>, want: nat, status: FillStatus)
    requires Buffered(src, at, nr, buf) && status != Filled
    requires status == Ended ==> nr < want && src.pos == |src.data|
    requires status.FillFailed? ==> src.faulty && at <= src.failedAt < at + want && src.failedAt <= src.pos
    requires want == HEADER_LEN
      || (at + HEADER_LEN <= |src.data| && src.data[at] <= SYSTEMERR && FrameEnd(src.data, at) == at + want)
    ensures Explains(src, at, nr, buf, Interruption(status))
  {
    assert src.data[at..|src.data|] == src.data[at..];
    if want != HEADER_LEN {
      IncompleteFrame(src.data, at, if status == Ended then |src.data| else src.failedAt);
    }
  }

  /** Reads the stream and the length of the frame, header included, off the header in the buffer. */
  method HeaderInBuffer(src: Source, buf: array<byte>, nr: nat, ghost at: nat) returns (stream: byte, end: nat)
    requires Buffered(src, at, nr, buf) && HEADER_LEN <= nr
    ensures stream == src.data[at] && at + end == FrameEnd(src.data, at)
    ensures buf[..nr][0] == stream
  {
    stream, end := buf[0], HEADER_LEN + Uint32(buf[SIZE_INDEX..SIZE_INDEX + 4]);
    assert stream == buf[..nr][0] == src.data[at..src.pos][0];
    SliceOfSlice(src.data, at, src.pos, SIZE_INDEX, SIZE_INDEX + 4);
    assert buf[SIZE_INDEX..SIZE_INDEX + 4] == buf[..nr][SIZE_INDEX..SIZE_INDEX + 4];
  }

  /** Brings the rest of a frame whose header is in the buffer into the buffer. */
  method FillFrame(src: Source, buf: array<byte>, nr0: nat, stream: byte, end: nat, ghost at: nat)
    returns (nr: nat, next: Next)
    requires Buffered(src, at, nr0, buf) && HEADER_LEN <= nr0 && HEADER_LEN <= end <= buf.Length
    requires src.data[at] == stream <= SYSTEMERR && FrameEnd(src.data, at) == at + end
    modifies src, buf
    ensures Explains(src, at, nr, buf, next)
    ensures old(src.pos) <= src.pos && (next.ReadError? ==> old(src.pos) <= src.failedAt)
  {
    var status;
    nr, status := Fill(src, buf, nr0, end, at);
    if status != Filled {
      CutShort(src, at, nr, buf, end, status);
      return nr, Interruption(status);
    }
    FrameInBuffer(src.data, at, buf[..nr], end);
    next := Complete(stream, buf[..nr][HEADER_LEN..end]);
  }

  /** Brings the next frame into the buffer, extending the buffer when the frame does not fit. */
  method NextFrame(src: Source, buf0: array<byte>, nr0: nat, ghost at: nat)
    returns (buf: array<byte>, nr: nat, next: Next)
    requires STARTING_BUF_LEN <= buf0.Length && Buffered(src, at, nr0, buf0)
    modifies src, buf0
    ensures buf == buf0 || fresh(buf)
    ensures buf.Length == buf0.Length || buf0.Length < buf.Length <= LargestFrame(src.data[at..]) + HEADER_LEN + 1
    ensures old(src.pos) <= src.pos && (next.ReadError? ==> old(src.pos) <= src.failedAt)
    ensures Explains(src, at, nr, buf, next)
  {
    var status;
    buf := buf0;
    nr, status := Fill(src, buf, nr0, HEADER_LEN, at);
    if status != Filled {
      CutShort(src, at, nr, buf, HEADER_LEN, status);
      return buf, nr, Interruption(status);
    }
    var stream, end := HeaderInBuffer(src, buf, nr, at);
    if stream > SYSTEMERR {
      return buf, nr, BadHeader(stream);
    }
    if buf.Length < end {
      LargestFrameAt(src.data, at);
      buf := Grow(src, buf, nr, end + 1, at);
    }
    nr, next := FillFrame(src, buf, nr, stream, end, at);
  }

  /** A destination's contents grew by its share of a frame. */
  twostate predicate Received(dstout: Sink, dsterr: Sink, f: Frame)
    reads dstout, dsterr
  {
    && dstout.contents == old(dstout.contents) + (if GoesTo(f, true, dstout == dsterr) then f.payload else [])
    && dsterr.contents == old(dsterr.contents) + (if GoesTo(f, dstout == dsterr, true) then f.payload else [])
  }

  /** Moves the bytes from `k` on to the beginning of the buffer, in place. */
  method ShiftLeft(src: Source, buf: array<byte>, nr: nat, k: nat, ghost at: nat, ghost next: nat) returns (left: nat)
    requires Buffered(src, at, nr, buf) && k <= nr && next == at + k
    modifies buf
    ensures Buffered(src, next, left, buf)
  {
    SliceOfSlice(src.data, at, src.pos, k, nr);
    assert buf[k..nr] == buf[..nr][k..nr];
    forall i | 0 <= i < buf.Length - k {
      buf[i] := buf[i + k];
    }
    left := nr - k;
    assert buf[..left] == old(buf[k..nr]);
  }

  /** The meaning of the whole stream is what was passed on and then the meaning of the rest. */
  lemma RestOfStream(s: seq<byte>, base: nat, at: nat, delivered: seq<Frame>)
    requires Consumes(s, base, at, delivered) && base <= at <= |s|
    ensures Demux(s[base..]) == Demuxed(delivered + Demux(s[at..]).frames, Demux(s[at..]).fault)
    ensures LargestFrame(s[at..]) <= LargestFrame(s[base..])
  {
    DemuxAfter(s, base, at, delivered, |s|);
    assert s[base..|s|] == s[base..] && s[at..|s|] == s[at..];
  }

  function ErrorOf(next: Next): CopyError
    requires !next.Complete?
  {
    match next
    case EndOfInput => Success
    case BadHeader(id) => UnrecognizedHeader(id)
    case ReadError(code) => SourceError(code)
  }

  lemma NoMoreFrames(src: Source, at: nat, nr: nat, buf: array<byte>, next: Next)
    requires Explains(src, at, nr, buf, next) && !next.Complete?
    ensures Accounts(src, at, ErrorOf(next), [], [])
  {
  }

  /** The parser's view of a frame in the stream. */
  lemma DemuxKnownFrame(s: seq<byte>, at: nat, f: Frame)
    requires KnownFrame(s, at, f.stream, f.payload)
    ensures var parsed := Demux(s[at..]);
      if f.stream == SYSTEMERR then parsed == Demuxed([], Daemon(f.payload))
      else parsed.frames != [] && parsed.frames[0] == f
  {
    assert s[at..|s|] == s[at..];
    SliceOfSlice(s, at, |s|, SIZE_INDEX, SIZE_INDEX + 4);
    SliceOfSlice(s, at, |s|, HEADER_LEN, HEADER_LEN + |f.payload|);
  }

  lemma DaemonErrorNext(src: Source, at: nat, payload: seq<byte>)
    requires at <= src.pos <= |src.data| && KnownFrame(src.data, at, SYSTEMERR, payload)
    ensures Accounts(src, at, DaemonError(payload), [], [])
  {
  }

  /** A destination that took only a part of the next frame. */
  lemma TornNext(src: Source, at: nat, f: Frame, n: nat, code: int)
    requires at <= src.pos <= |src.data| && n <= |f.payload|
    requires f.stream < SYSTEMERR && KnownFrame(src.data, at, f.stream, f.payload)
    ensures Accounts(src, at, DestinationError(code), [], [Frame(f.stream, f.payload[..n])])
    ensures Frame(f.stream, f.payload[..n]) != f ==>
      Accounts(src, at, ShortWrite, [], [Frame(f.stream, f.payload[..n])])
  {
    DemuxKnownFrame(src.data, at, f);
  }

  /** What is said about the rest of the stream, said about the whole of it. */
  lemma AccountsAfter(src: Source, base: nat, at: nat, delivered: seq<Frame>, err: CopyError, torn: seq<Frame>)
    requires base <= at && Consumes(src.data, base, at, delivered) && Accounts(src, at, err, [], torn)
    ensures Accounts(src, base, err, delivered, torn)
  {
    RestOfStream(src.data, base, at, delivered);
    if err.SourceError? {
      DemuxAfter(src.data, base, at, delivered, src.failedAt);
      assert delivered + [] == delivered;
    }
  }

  /** A destination that held its share of some frames and received its share of one more. */
  lemma ReceivedNext(c0: seq<byte>, c1: seq<byte>, c2: seq<byte>, frames: seq<Frame>, f: Frame, asOut: bool,
                     asErr: bool)
    requires c1 == c0 + Routed(frames, asOut, asErr)
    requires c2 == c1 + (if GoesTo(f, asOut, asErr) then f.payload else [])
    ensures c2 == c0 + Routed(frames + [f], asOut, asErr)
  {
    RoutedSnoc(frames, f, asOut, asErr);
  }

  lemma ConsumeKnown(s: seq<byte>, base: nat, at: nat, next: nat, delivered: seq<Frame>, f: Frame)
    requires Consumes(s, base, at, delivered) && KnownFrame(s, at, f.stream, f.payload) && f.stream < SYSTEMERR
    requires next == at + HEADER_LEN + |f.payload|
    ensures Consumes(s, base, next, delivered + [f])
  {
    ConsumeNext(s, base, at, delivered);
  }

  /** What copying one more frame comes to: it was passed on whole, or the copy ends, maybe after a part of a frame. */
  datatype Copied = Whole(frame: Frame) | Stop(err: CopyError, torn: seq<Frame>)

  /** What the outcome says about the stream from `at` on. */
  ghost predicate Settles(src: Source, at: nat, c: Copied)
    reads src
  {
    match c
    case Whole(f) => f.stream < SYSTEMERR && KnownFrame(src.data, at, f.stream, f.payload)
    case Stop(err, torn) => at <= src.pos && Accounts(src, at, err, [], torn)
  }

  /** Writes the payload of a frame to its destination. */
  method WriteFrame(dstout: Sink, dsterr: Sink, f: Frame) returns (c: Copied, ghost code: int)
    modifies if f.stream == STDERR then dsterr else dstout
    ensures c.Whole? ==> c.frame == f && Received(dstout, dsterr, f)
    ensures c.Stop? ==>
      && |c.torn| == 1 && c.torn[0].stream == f.stream && c.torn[0].payload <= f.payload
      && Received(dstout, dsterr, c.torn[0])
      && (if f.stream == STDERR then dsterr else dstout).faulty
      && (c.err == DestinationError(code) || (c.err == ShortWrite && c.torn[0] != f))
  {
    var out := if f.stream == STDERR then dsterr else dstout;
    var nw, ew := out.Write(f.payload);
    var part := Frame(f.stream, f.payload[..nw]);
    if ew != Written {
      return Stop(DestinationError(ew.code), [part]), ew.code;
    }
    if nw != |f.payload| {
      return Stop(ShortWrite, [part]), 0;
    }
    assert part == f;
    return Whole(f), 0;
  }

  method CopyFrame(dstout: Sink, dsterr: Sink, src: Source, buf0: array<byte>, nr0: nat, ghost at: nat)
    returns (buf: array<byte>, nr: nat, c: Copied, ghost next: nat)
    requires STARTING_BUF_LEN <= buf0.Length && Buffered(src, at, nr0, buf0)
    modifies dstout, dsterr, src, buf0
    ensures buf == buf0 || fresh(buf)
    ensures buf.Length == buf0.Length || buf0.Length < buf.Length <= LargestFrame(src.data[at..]) + HEADER_LEN + 1
    ensures Settles(src, at, c)
    ensures c.Whole? ==> Received(dstout, dsterr, c.frame)
    ensures c.Whole? ==> next == at + HEADER_LEN + |c.frame.payload| && Buffered(src, next, nr, buf)
    ensures c.Stop? && c.torn == [] ==> unchanged(dstout, dsterr)
    ensures c.Stop? && c.torn != [] ==> c.torn == [c.torn[0]] && Received(dstout, dsterr, c.torn[0])
    ensures c.Stop? && (c.err.DestinationError? || c.err.ShortWrite?) ==>
      |c.torn| == 1 && (if c.torn[0].stream == STDERR then dsterr else dstout).faulty
    ensures c.Stop? && c.err.SourceError? ==> old(src.pos) <= src.failedAt
  {
    var found;
    next := at;
    buf, nr, found := NextFrame(src, buf0, nr0, at);
    if !found.Complete? {
      NoMoreFrames(src, at, nr, buf, found);
      c := Stop(ErrorOf(found), []);
      return;
    }
    var stream, payload := found.stream, found.payload;
    if stream == SYSTEMERR {
      DaemonErrorNext(src, at, payload);
      c := Stop(DaemonError(payload), []);
      return;
    }
    ghost var ew;
    c, ew := WriteFrame(dstout, dsterr, Frame(stream, payload));
    if c.Whole? {
      next := at + HEADER_LEN + |payload|;
      nr := ShiftLeft(src, buf, nr, HEADER_LEN + |payload|, at, next);
    } else {
      TornNext(src, at, Frame(stream, payload), |c.torn[0].payload|, ew);
    }
  }

  /** The destinations held `out0` and `err0` and have received their shares of the frames since. */
  ghost predicate Delivered(dstout: Sink, dsterr: Sink, out0: seq<byte>, err0: seq<byte>, frames: seq<Frame>)
    reads dstout, dsterr
  {
    && dstout.contents == out0 + Routed(frames, true, dstout == dsterr)
    && dsterr.contents == err0 + Routed(frames, dstout == dsterr, true)
  }

  /** What copying one more frame passed on: all of it, a part, or nothing. */
  function Sent(c: Copied): seq<Frame> {
    match c
    case Whole(f) => [f]
    case Stop(_, torn) => torn
  }

  /** Copies one more frame, counting on what was delivered before. */
  method CopyNext(dstout: Sink, dsterr: Sink, src: Source, buf0: array<byte>, nr0: nat, ghost at: nat,
                  ghost out0: seq<byte>, ghost err0: seq<byte>, ghost delivered: seq<Frame>)
    returns (buf: array<byte>, nr: nat, c: Copied, ghost next: nat)
    requires STARTING_BUF_LEN <= buf0.Length && Buffered(src, at, nr0, buf0)
    requires Delivered(dstout, dsterr, out0, err0, delivered)
    modifies dstout, dsterr, src, buf0
    ensures buf == buf0 || fresh(buf)
    ensures buf.Length == buf0.Length || buf0.Length < buf.Length <= LargestFrame(src.data[at..]) + HEADER_LEN + 1
    ensures Settles(src, at, c)
    ensures Delivered(dstout, dsterr, out0, err0, delivered + Sent(c))
    ensures c.Whole? ==> next == at + HEADER_LEN + |c.frame.payload| && Buffered(src, next, nr, buf)
    ensures c.Stop? && (c.err.DestinationError? || c.err.ShortWrite?) ==>
      |c.torn| == 1 && (if c.torn[0].stream == STDERR then dsterr else dstout).faulty
    ensures c.Stop? && c.err.SourceError? ==> old(src.pos) <= src.failedAt
  {
    buf, nr, c, next := CopyFrame(dstout, dsterr, src, buf0, nr0, at);
    ghost var sent := Sent(c);
    if sent == [] {
      assert delivered + sent == delivered;
    } else {
      assert sent == [sent[0]];
      ReceivedNext(out0, old(dstout.contents), dstout.contents, delivered, sent[0], true, dstout == dsterr);
      ReceivedNext(err0, old(dsterr.contents), dsterr.contents, delivered, sent[0], dstout == dsterr, true);
    }
  }

  /** The frames delivered so far are those before `at`, and the buffer is no longer than they made it. */
  ghost predicate Passing(s: seq<byte>, base: nat, at: nat, delivered: seq<Frame>, written: nat, length: nat) {
    && base <= at <= |s| && Consumes(s, base, at, delivered) && written == TotalLength(delivered)
    && STARTING_BUF_LEN <= length
    && (length == STARTING_BUF_LEN || length <= LargestFrame(s[base..]) + HEADER_LEN + 1)
  }

  /** A buffer extended for the next frame is still no longer than the largest frame made it. */
  lemma PassingBuffer(s: seq<byte>, base: nat, at: nat, delivered: seq<Frame>, written: nat, length: nat, length': nat)
    requires Passing(s, base, at, delivered, written, length)
    requires length' == length || length < length' <= LargestFrame(s[at..]) + HEADER_LEN + 1
    ensures Passing(s, base, at, delivered, written, length')
  {
    RestOfStream(s, base, at, delivered);
  }

  lemma PassingNext(s: seq<byte>, base: nat, at: nat, next: nat, delivered: seq<Frame>, f: Frame, written: nat,
                    length: nat)
    requires Passing(s, base, at, delivered, written, length)
    requires KnownFrame(s, at, f.stream, f.payload) && f.stream < SYSTEMERR && next == at + HEADER_LEN + |f.payload|
    ensures Passing(s, base, next, delivered + [f], written + |f.payload|, length)
  {
    ConsumeKnown(s, base, at, next, delivered, f);
    TotalLengthSnoc(delivered, f);
  }

  /**
   Standard output has received the payloads of streams 0 and 1 and standard error those of stream 2, in order; one
   destination for both has received all of them.
   */
  ghost predicate ByNumber(dstout: Sink, dsterr: Sink, out0: seq<byte>, err0: seq<byte>, frames: seq<Frame>)
    reads dstout, dsterr
  {
    if dstout == dsterr then dstout.contents == out0 + Payloads(frames, {0, 1, 2})
    else dstout.contents == out0 + Payloads(frames, {0, 1}) && dsterr.contents == err0 + Payloads(frames, {2})
  }

  lemma DeliveredByNumber(dstout: Sink, dsterr: Sink, out0: seq<byte>, err0: seq<byte>, frames: seq<Frame>)
    requires Delivered(dstout, dsterr, out0, err0, frames) && forall f | f in frames :: f.stream <= 2
    ensures ByNumber(dstout, dsterr, out0, err0, frames)
  {
    RoutedByNumber(frames);
  }

  /** Nothing but frames of streams 0, 1 and 2 is ever delivered. */
  lemma AccountedStreams(src: Source, base: nat, err: CopyError, delivered: seq<Frame>, torn: seq<Frame>)
    requires Accounts(src, base, err, delivered, torn)
    ensures forall f | f in delivered + torn :: f.stream <= 2
  {
    if err.SourceError? {
      var s := src.data[base..src.failedAt];
      ParsedByNumber(s, Demuxed(delivered, Clean));
      LaidOutEnds(s, delivered, Clean);
    } else {
      var s := src.data[base..];
      var parsed := Demux(s);
      ParsedByNumber(s, parsed);
      LaidOutEnds(s, parsed.frames, parsed.fault);
      ToldStreams(src, base, err, delivered, torn, parsed);
    }
  }

  lemma ToldStreams(src: Source, base: nat, err: CopyError, delivered: seq<Frame>, torn: seq<Frame>, parsed: Demuxed)
    requires base <= src.pos <= |src.data| && Tells(src, base, err, delivered, torn, parsed) && !err.SourceError?
    requires forall f | f in parsed.frames :: f.stream <= 2
    ensures forall f | f in delivered + torn :: f.stream <= 2
  {
    if err.DestinationError? || err.ShortWrite? {
      assert parsed.frames[|delivered|] in parsed.frames;
      assert forall f | f in delivered :: f in parsed.frames;
    }
  }

  lemma AccountedByNumber(dstout: Sink, dsterr: Sink, src: Source, out0: seq<byte>, err0: seq<byte>, base: nat,
                          err: CopyError, delivered: seq<Frame>, torn: seq<Frame>)
    requires Accounts(src, base, err, delivered, torn)
    requires Delivered(dstout, dsterr, out0, err0, delivered + torn)
    ensures ByNumber(dstout, dsterr, out0, err0, delivered + torn)
  {
    AccountedStreams(src, base, err, delivered, torn);
    DeliveredByNumber(dstout, dsterr, out0, err0, delivered + torn);
  }

  /**
   The errors that the stream itself brings about: one by a header whose first byte is 4 or more, and one by a complete
   frame of stream 3; copying succeeds when neither is met.
   */
  lemma ErrorByNumber(src: Source, base: nat, err: CopyError, delivered: seq<Frame>, torn: seq<Frame>)
    requires Accounts(src, base, err, delivered, torn)
    ensures err.Success? || err.DaemonError? || err.UnrecognizedHeader? ==>
      EndsBehind(src.data[base..], delivered, FaultOf(err))
  {
    var s := src.data[base..];
    var parsed := Demux(s);
    ParsedByNumber(s, parsed);
    LaidOutEnds(s, parsed.frames, parsed.fault);
    ToldError(src, base, err, delivered, torn, s, parsed);
  }

  /** The end of the stream that an error stands for. */
  function FaultOf(err: CopyError): Fault {
    match err
    case UnrecognizedHeader(id) => UnknownStream(id)
    case DaemonError(message) => Daemon(message)
    case _ => Clean
  }

  lemma ToldError(src: Source, base: nat, err: CopyError, delivered: seq<Frame>, torn: seq<Frame>,
                  s: seq<byte>, parsed: Demuxed)
    requires base <= src.pos <= |src.data| && Tells(src, base, err, delivered, torn, parsed)
    requires EndsBehind(s, parsed.frames, parsed.fault)
    ensures err.Success? || err.DaemonError? || err.UnrecognizedHeader? ==> EndsBehind(s, delivered, FaultOf(err))
  {
  }

  /**
   `delivered` are the frames passed on whole, `torn` the accepted part of a frame at which a destination
   stopped, and `peak` the final, and so the largest, length of the buffer.
   */
  method StdCopy(dstout: Sink, dsterr: Sink, src: Source)
    returns (written: nat, err: CopyError, ghost delivered: seq<Frame>, ghost torn: seq<Frame>, ghost peak: nat)
    requires src.pos <= |src.data|
    modifies dstout, dsterr, src
    ensures Delivered(dstout, dsterr, old(dstout.contents), old(dsterr.contents), delivered + torn)
    ensures ByNumber(dstout, dsterr, old(dstout.contents), old(dsterr.contents), delivered + torn)
    ensures old(src.pos) <= src.pos <= |src.data|
    ensures Accounts(src, old(src.pos), err, delivered, torn)
    ensures err.DestinationError? || err.ShortWrite? ==>
      |torn| == 1 && (if torn[0].stream == STDERR then dsterr else dstout).faulty
    ensures written == if err.Success? || err.DaemonError? then TotalLength(delivered) else 0
    ensures peak <= 32777 || peak <= LargestFrame(src.data[old(src.pos)..]) + 9
  {
    ghost var base := src.pos;
    ghost var at := base;  // where the bytes not passed on yet begin
    delivered, torn := [], [];
    var buf := new byte[STARTING_BUF_LEN];
    var nr: nat := 0;
    written := 0;
    while true
      invariant fresh(buf) && Buffered(src, at, nr, buf)
      invariant Passing(src.data, base, at, delivered, written, buf.Length)
      invariant Delivered(dstout, dsterr, old(dstout.contents), old(dsterr.contents), delivered)
      decreases |src.data| - at
    {
      ghost var length := buf.Length;
      var c;
      ghost var next;
      buf, nr, c, next :=
        CopyNext(dstout, dsterr, src, buf, nr, at, old(dstout.contents), old(dsterr.contents), delivered);
      PassingBuffer(src.data, base, at, delivered, written, length, buf.Length);
      if c.Stop? {
        err, torn, peak := c.err, c.torn, buf.Length;
        AccountsAfter(src, base, at, delivered, err, torn);
        AccountedByNumber(dstout, dsterr, src, old(dstout.contents), old(dsterr.contents), base, err, delivered, torn);
        if !err.Success? && !err.DaemonError? {
          written := 0;
        }
        return;
      }
      PassingNext(src.data, base, at, next, delivered, c.frame, written, buf.Length);
      written, delivered, at := written + |c.frame.payload|, delivered + [c.frame], next;
    }
  }

  // ---------- end to end ----------

  /** One call of a frame writer. */
  datatype WriteCall = WriteCall(stream: byte, p: Slice)

  /** The frames that the calls put on the wire: a nil slice puts none, an empty one does. */
  function FramesOf(writes: seq<WriteCall>): seq<Frame> {
    if writes == [] then []
    else
      var n := |writes| - 1;
      var rest := FramesOf(writes[..n]);
      if writes[n].p == Nil then rest else rest + [Frame(writes[n].stream, writes[n].p.bytes)]
  }

  function OnTheWire(w: WriteCall): seq<byte> {
    if w.p == Nil then [] else Encode(Frame(w.stream, w.p.bytes))
  }

  method WriteOne(w: WriteCall, wire: Sink)
    requires !wire.faulty
    modifies wire
    ensures wire.contents == old(wire.contents) + OnTheWire(w)
  {
    var writer := new StdWriter(wire, w.stream);
    var n, status := writer.Write(w.p);
    assert w.p == Nil ==> wire.contents + [] == wire.contents;
  }

  lemma WireSnoc(before: seq<byte>, writes: seq<WriteCall>, i: nat)
    requires i < |writes|
    ensures before + Mux(FramesOf(writes[..i])) + OnTheWire(writes[i]) == before + Mux(FramesOf(writes[..i + 1]))
  {
    assert writes[..i + 1][..i] == writes[..i];
    if writes[i].p != Nil {
      MuxSnoc(FramesOf(writes[..i]), Frame(writes[i].stream, writes[i].p.bytes));
    }
  }

  /** Writes through frame writers that share one wire; a writer has no state, so each call may have its own. */
  method WriteAll(writes: seq<WriteCall>, wire: Sink)
    requires !wire.faulty
    modifies wire
    ensures wire.contents == old(wire.contents) + Mux(FramesOf(writes))
  {
    for i := 0 to |writes|
      invariant wire.contents == old(wire.contents) + Mux(FramesOf(writes[..i]))
    {
      WriteOne(writes[i], wire);
      WireSnoc(old(wire.contents), writes, i);
    }
    assert writes[..|writes|] == writes;
  }

  /**
   End to end: writes through frame writers, and a copy of what is then on the wire, in whatever chunks it is read.
   With representable writes and healthy destinations, each destination grows by the writes routed to it, a shared one
   by all of them interleaved as they were written, and the count is their total length.
   */
  method WriteAndCopy(writes: seq<WriteCall>, dstout: Sink, dsterr: Sink, idle: nat)
    returns (written: nat, err: CopyError)
    modifies dstout, dsterr
    ensures var frames := FramesOf(writes);
      !dstout.faulty && !dsterr.faulty && (forall f | f in frames :: Representable(f)) ==>
        && err == Success && written == TotalLength(frames)
        && Delivered(dstout, dsterr, old(dstout.contents), old(dsterr.contents), frames)
    ensures var frames := FramesOf(writes);
      !dstout.faulty && !dsterr.faulty && (forall f | f in frames :: f.stream <= 2 && |f.payload| < 4294967296) ==>
        ByNumber(dstout, dsterr, old(dstout.contents), old(dsterr.contents), frames)
  {
    var wire := new Sink(false);
    WriteAll(writes, wire);
    var src := new Source(wire.contents, false, idle);
    ghost var delivered, torn, peak;
    written, err, delivered, torn, peak := StdCopy(dstout, dsterr, src);
    if !dstout.faulty && !dsterr.faulty && forall f | f in FramesOf(writes) :: Representable(f) {
      CopyOfWrites(src, FramesOf(writes), written, err, delivered, torn);
      assert delivered + torn == FramesOf(writes);
    }
  }

  /** When the source holds nothing but representable frames and neither side fails, exactly these are copied. */
  lemma CopyOfWrites(src: Source, frames: seq<Frame>, written: nat, err: CopyError, delivered: seq<Frame>,
                     torn: seq<Frame>)
    requires src.data == Mux(frames) && (forall f | f in frames :: Representable(f))
    requires Accounts(src, 0, err, delivered, torn) && !src.faulty && !err.DestinationError? && !err.ShortWrite?
    requires written == if err.Success? || err.DaemonError? then TotalLength(delivered) else 0
    ensures err == Success && delivered == frames && torn == [] && src.pos == |src.data|
    ensures written == TotalLength(frames)
  {
    RoundTrip(frames);
    assert src.data[0..] == src.data;
  }
}
