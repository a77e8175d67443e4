/**
 The attach stream decoder: an HTTP upgrade response, then either multiplexed
 frames or, for a TTY container, the raw output. The socket delivers the bytes
 in chunks cut anywhere.
 */
module AttachStream {
  import opened Common

  newtype Byte = b: int | 0 <= b < 256

  const CR: Byte := 13
  const LF: Byte := 10
  const SEPARATOR: seq<Byte> := [CR, LF, CR, LF]
  const UPGRADED: seq<Byte> := [49, 48, 49]  // "101"

  function IndexOf(s: seq<Byte>, t: seq<Byte>): (r: Option<nat>)
    ensures r.Some? ==> r.value + |t| <= |s| && s[r.value..r.value + |t|] == t
  {
    if t <= s then Some(0)
    else if s == [] then None
    else
      var r := IndexOf(s[1..], t);
      if r.Some? then Some(r.value + 1) else None
  }

  function ReadUInt32BE(s: seq<Byte>): (n: nat)
    requires |s| == 4
    ensures n < 0x1_0000_0000
  {
    var a, b, c, d := s[0] as int, s[1] as int, s[2] as int, s[3] as int;
    ((a * 256 + b) * 256 + c) * 256 + d
  }

  // ----- decoding all at once -----

  /** The size of the whole frame at the front, if it is complete. */
  function FrameLength(s: seq<Byte>): (r: Option<nat>)
    ensures r.Some? ==> 8 <= r.value <= |s|
  {
    if |s| < 8 then None
    else
      var size := ReadUInt32BE(s[4..8]);
      if |s| < 8 + size then None else Some(8 + size)
  }

  /** The payloads of the complete frames at the front, and the bytes that remain. */
  function Frames(s: seq<Byte>): (r: (seq<seq<Byte>>, seq<Byte>))
    ensures FrameLength(r.1).None?
    decreases |s|
  {
    var n := FrameLength(s);
    if n.None? then ([], s)
    else
      var rest := Frames(s[n.value..]);
      ([s[8..n.value]] + rest.0, rest.1)
  }

  /** The connection: what is buffered, what was delivered, and how often the upgrade was refused. */
  datatype Stream = Stream(handshakeDone: bool, buffer: seq<Byte>, delivered: seq<seq<Byte>>, refusals: nat)

  const START := Stream(false, [], [], 0)

  function Drain(tty: bool, s: Stream): Stream {
    if tty then
      if s.buffer == [] then s else s.(delivered := s.delivered + [s.buffer], buffer := [])
    else
      var f := Frames(s.buffer);
      s.(delivered := s.delivered + f.0, buffer := f.1)
  }

  /** What the handler does once the bytes read are in the buffer. */
  function Process(tty: bool, s: Stream): Stream {
    if s.handshakeDone then Drain(tty, s)
    else
      var at := IndexOf(s.buffer, SEPARATOR);
      if at.None? then s
      else
        var rest := s.buffer[at.value + 4..];
        if IndexOf(s.buffer[..at.value], UPGRADED).None? then s.(buffer := rest, refusals := s.refusals + 1)
        else Drain(tty, s.(buffer := rest, handshakeDone := true))
  }

  /** One read from the socket. */
  function Receive(tty: bool, s: Stream, chunk: seq<Byte>): Stream {
    Process(tty, s.(buffer := s.buffer + chunk))
  }

  /** A connection whose first bytes are `a`. */
  function Opening(a: seq<Byte>): Stream {
    Stream(false, a, [], 0)
  }

  lemma FromStart(tty: bool, a: seq<Byte>)
    ensures Receive(tty, START, a) == Process(tty, Opening(a))
  {
    assert [] + a == a;
  }

  function ReceiveAll(tty: bool, s: Stream, chunks: seq<seq<Byte>>): Stream
    decreases |chunks|
  {
    if chunks == [] then s
    else Receive(tty, ReceiveAll(tty, s, chunks[..|chunks| - 1]), chunks[|chunks| - 1])
  }

  function Concat(chunks: seq<seq<Byte>>): seq<Byte>
    decreases |chunks|
  {
    if chunks == [] then [] else Concat(chunks[..|chunks| - 1]) + chunks[|chunks| - 1]
  }

  // ----- the handler -----

  /** The promise a writer waits for; it settles once. */
  datatype Ready = Pending | Resolved | Rejected

  function Settle(ready: Ready, outcome: Ready): Ready {
    if ready.Pending? then outcome else ready
  }

  /** What the promise has come to, read off the stream: a refusal, if there was one, came before any upgrade. */
  function ReadyOf(s: Stream): Ready {
    if s.refusals > 0 then Rejected else if s.handshakeDone then Resolved else Pending
  }

  class AttachedStream {
    const tty: bool
    var handshakeDone: bool
    var buffer: seq<Byte>
    var delivered: seq<seq<Byte>>
    var refusals: nat
    var ready: Ready

    ghost predicate Valid()
      reads this
    {
      ready == ReadyOf(View())
    }

    ghost function View(): Stream
      reads this
    {
      Stream(handshakeDone, buffer, delivered, refusals)
    }

    constructor (tty: bool)
      ensures this.tty == tty && View() == START && Valid()
    {
      this.tty := tty;
      handshakeDone, buffer, delivered, refusals, ready := false, [], [], 0, Pending;
    }

    /** Strips the response headers; refused when they do not speak of an upgrade. */
    method ConsumeHandshake() returns (r: Result<bool, ()>)
      modifies this`handshakeDone, this`buffer
      ensures var at := IndexOf(old(buffer), SEPARATOR);
              if at.None? then r == Ok(false) && buffer == old(buffer) && handshakeDone == old(handshakeDone)
              else if IndexOf(old(buffer)[..at.value], UPGRADED).None? then
                r.Err? && buffer == old(buffer)[at.value + 4..] && handshakeDone == old(handshakeDone)
              else r == Ok(true) && buffer == old(buffer)[at.value + 4..] && handshakeDone
    {
      var at := IndexOf(buffer, SEPARATOR);
      if at.None? {
        return Ok(false);
      }
      var headers := buffer[..at.value];
      buffer := buffer[at.value + 4..];
      if IndexOf(headers, UPGRADED).None? {
        return Err(());
      }
      handshakeDone := true;
      r := Ok(true);
    }

    /** Delivers every complete frame in the buffer. */
    method DrainFrames()
      modifies this`buffer, this`delivered
      ensures delivered == old(delivered) + Frames(old(buffer)).0
      ensures buffer == Frames(old(buffer)).1
    {
      while |buffer| >= 8
        invariant delivered + Frames(buffer).0 == old(delivered) + Frames(old(buffer)).0
        invariant Frames(buffer).1 == Frames(old(buffer)).1
        decreases |buffer|
      {
        var size := ReadUInt32BE(buffer[4..8]);
        if |buffer| < 8 + size {
          return;
        }
        ghost var rest := Frames(buffer[8 + size..]);
        assert delivered + ([buffer[8..8 + size]] + rest.0) == delivered + [buffer[8..8 + size]] + rest.0;
        delivered := delivered + [buffer[8..8 + size]];
        buffer := buffer[8 + size..];
      }
    }

    method DrainRaw()
      modifies this`buffer, this`delivered
      ensures delivered == if old(buffer) == [] then old(delivered) else old(delivered) + [old(buffer)]
      ensures buffer == []
    {
      if |buffer| == 0 {
        return;
      }
      delivered := delivered + [buffer];
      buffer := [];
    }

    /** The socket's data handler, for callbacks that do not throw. */
    method Data(chunk: seq<Byte>)
      requires Valid()
      modifies this`handshakeDone, this`buffer, this`delivered, this`refusals, this`ready
      ensures View() == Receive(tty, old(View()), chunk) && Valid()
      ensures !old(ready).Pending? ==> ready == old(ready)
    {
      hide IndexOf, Frames;
      buffer := buffer + chunk;
      if !handshakeDone {
        var r := ConsumeHandshake();
        if r.Err? {
          refusals := refusals + 1;
          ready := Settle(ready, Rejected);
          return;
        }
        if !r.value {
          return;
        }
      }
      ready := Settle(ready, Resolved);
      if tty {
        DrainRaw();
      } else {
        DrainFrames();
      }
    }
  }

  // ----- chunking does not matter -----

  /** The first occurrence, when bytes are appended behind it. */
  lemma {:induction false} IndexOfAppend(s: seq<Byte>, more: seq<Byte>, t: seq<Byte>)
    requires IndexOf(s, t).Some?
    ensures IndexOf(s + more, t) == IndexOf(s, t)
  {
    if t <= s {
      assert t <= s + more;
    } else {
      assert (s + more)[1..] == s[1..] + more;
      assert !(t <= s + more);
      IndexOfAppend(s[1..], more, t);
    }
  }

  lemma FrameLengthAppend(s: seq<Byte>, more: seq<Byte>)
    requires FrameLength(s).Some?
    ensures FrameLength(s + more) == FrameLength(s)
  {
    assert (s + more)[4..8] == s[4..8];
  }

  lemma {:induction false} FramesAppend(s: seq<Byte>, more: seq<Byte>)
    ensures Frames(s + more).0 == Frames(s).0 + Frames(Frames(s).1 + more).0
    ensures Frames(s + more).1 == Frames(Frames(s).1 + more).1
    decreases |s|
  {
    var n := FrameLength(s);
    if n.Some? {
      FrameLengthAppend(s, more);
      assert (s + more)[n.value..] == s[n.value..] + more;
      assert (s + more)[8..n.value] == s[8..n.value];
      FramesAppend(s[n.value..], more);
    }
  }

  /** Draining early or late delivers the same, apart from where the raw bytes are cut. */
  predicate Same(tty: bool, a: Stream, b: Stream) {
    && a.handshakeDone == b.handshakeDone && a.buffer == b.buffer && a.refusals == b.refusals
    && if tty then Concat(a.delivered) == Concat(b.delivered) else a.delivered == b.delivered
  }

  /** The first block of headers, if it is complete, speaks of the upgrade. */
  predicate Accepted(stream: seq<Byte>) {
    var at := IndexOf(stream, SEPARATOR);
    at.Some? ==> IndexOf(stream[..at.value], UPGRADED).Some?
  }

  lemma ConcatSnoc(chunks: seq<seq<Byte>>, chunk: seq<Byte>)
    ensures Concat(chunks + [chunk]) == Concat(chunks) + chunk
  {
    assert (chunks + [chunk])[..|chunks|] == chunks;
  }

  lemma DrainRawTwice(s: Stream, more: seq<Byte>)
    ensures var d := Drain(true, s);
            Same(true, Drain(true, d.(buffer := d.buffer + more)), Drain(true, s.(buffer := s.buffer + more)))
  {
    var d := Drain(true, s);
    assert d.buffer == [] && [] + more == more;
    if s.buffer == [] {
      assert s.buffer + more == more;
    } else {
      ConcatSnoc(s.delivered, s.buffer);
      ConcatSnoc(s.delivered, s.buffer + more);
      ConcatSnoc(s.delivered + [s.buffer], more);
      assert Concat(s.delivered) + s.buffer + more == Concat(s.delivered) + (s.buffer + more);
      assert more == [] ==> s.buffer + more == s.buffer;
    }
  }

  lemma DrainFramesTwice(s: Stream, more: seq<Byte>)
    ensures var d := Drain(false, s);
            Drain(false, d.(buffer := d.buffer + more)) == Drain(false, s.(buffer := s.buffer + more))
  {
    hide Frames;
    FramesAppend(s.buffer, more);
    var f, g := Frames(s.buffer), Frames(Frames(s.buffer).1 + more);
    assert s.delivered + f.0 + g.0 == s.delivered + (f.0 + g.0);
  }

  /** The blank line found in `a` is the one found in `a + b`. */
  lemma SameHeaders(a: seq<Byte>, b: seq<Byte>)
    requires IndexOf(a, SEPARATOR).Some?
    ensures IndexOf(a + b, SEPARATOR) == IndexOf(a, SEPARATOR)
    ensures var n := IndexOf(a, SEPARATOR).value;
            (a + b)[..n] == a[..n] && (a + b)[n + 4..] == a[n + 4..] + b
  {
    IndexOfAppend(a, b, SEPARATOR);
  }

  /** A read split in two. */
  lemma SplitRead(tty: bool, a: seq<Byte>, b: seq<Byte>)
    requires Accepted(a + b)
    ensures Accepted(a)
    ensures Same(tty, Receive(tty, Receive(tty, START, a), b), Receive(tty, START, a + b))
  {
    hide IndexOf, Drain;
    FromStart(tty, a);
    FromStart(tty, a + b);
    var at := IndexOf(a, SEPARATOR);
    if at.Some? {
      SameHeaders(a, b);
      var s := Stream(true, a[at.value + 4..], [], 0);
      DrainKeepsRest(tty, s);
      if tty {
        DrainRawTwice(s, b);
      } else {
        DrainFramesTwice(s, b);
      }
    }
  }

  lemma DrainKeepsRest(tty: bool, s: Stream)
    ensures Drain(tty, s).handshakeDone == s.handshakeDone && Drain(tty, s).refusals == s.refusals
  {
  }

  /** Streams that agree but for where the raw bytes are cut stay so. */
  lemma SameReceives(tty: bool, a: Stream, b: Stream, chunk: seq<Byte>)
    requires Same(tty, a, b)
    ensures Same(tty, Receive(tty, a, chunk), Receive(tty, b, chunk))
  {
    if tty {
      forall buffer: seq<Byte>
        ensures Concat(a.delivered + [buffer]) == Concat(b.delivered + [buffer])
      {
        ConcatSnoc(a.delivered, buffer);
        ConcatSnoc(b.delivered, buffer);
      }
    }
  }

  /** Any chunking of an accepted stream leaves the handler as one read of the whole stream does. */
  lemma {:induction false} ChunkingDoesNotMatter(tty: bool, chunks: seq<seq<Byte>>)
    requires Accepted(Concat(chunks))
    ensures Same(tty, ReceiveAll(tty, START, chunks), Receive(tty, START, Concat(chunks)))
    decreases |chunks|
  {
    if chunks != [] {
      var init, last := chunks[..|chunks| - 1], chunks[|chunks| - 1];
      SplitRead(tty, Concat(init), last);
      ChunkingDoesNotMatter(tty, init);
      SameReceives(tty, ReceiveAll(tty, START, init), Receive(tty, START, Concat(init)), last);
    }
  }

  // ----- exactly the streams for which chunking does not matter -----

  /** What follows the first block of headers. */
  function AfterHeaders(stream: seq<Byte>): seq<Byte>
    requires IndexOf(stream, SEPARATOR).Some?
  {
    stream[IndexOf(stream, SEPARATOR).value + 4..]
  }

  /** The upgrade was accepted, or nothing that looks like a second block of headers follows the refusal. */
  predicate ChunkSafe(stream: seq<Byte>) {
    Accepted(stream) || IndexOf(AfterHeaders(stream), SEPARATOR).None?
  }

  /** A refused stream with no second block of headers: one refusal, and the rest waits in the buffer. */
  lemma {:induction false} RefusedOnce(tty: bool, chunks: seq<seq<Byte>>, more: seq<Byte>)
    requires var stream := Concat(chunks) + more; !Accepted(stream) && ChunkSafe(stream)
    ensures ReceiveAll(tty, START, chunks) == Receive(tty, START, Concat(chunks))
    decreases |chunks|
  {
    if chunks != [] {
      var a, b := Concat(chunks[..|chunks| - 1]), chunks[|chunks| - 1];
      assert a + b + more == a + (b + more);
      RefusedOnce(tty, chunks[..|chunks| - 1], b + more);
      RefusedReads(tty, a, b, more);
    }
  }

  lemma RefusedReads(tty: bool, a: seq<Byte>, b: seq<Byte>, more: seq<Byte>)
    requires var stream := a + b + more; !Accepted(stream) && ChunkSafe(stream)
    ensures Receive(tty, Receive(tty, START, a), b) == Receive(tty, START, a + b)
  {
    hide IndexOf, Drain;
    FromStart(tty, a);
    FromStart(tty, a + b);
    var at := IndexOf(a, SEPARATOR);
    if at.Some? {
      SameHeaders(a, b);
      SameHeaders(a + b, more);
      var rest := a[at.value + 4..];
      if IndexOf(rest + b, SEPARATOR).Some? {
        SameHeaders(rest + b, more);
      }
    }
  }

  /** After a refusal, whether a second block of headers is looked at depends on where the reads were cut. */
  lemma SecondHeadersDependOnChunking(tty: bool, stream: seq<Byte>)
    requires !ChunkSafe(stream)
    ensures var n := IndexOf(stream, SEPARATOR).value + 4;
            && Concat([stream[..n], stream[n..]]) == stream
            && !Same(tty, ReceiveAll(tty, START, [stream[..n], stream[n..]]), Receive(tty, START, stream))
  {
    hide IndexOf, Receive, ReceiveAll, Concat;
    var n := IndexOf(stream, SEPARATOR).value + 4;
    var a, b := stream[..n], stream[n..];
    assert a + b == stream;
    TwoReads(tty, a, b);
    RefusalEndsAtBlankLine(tty, stream);
    SecondHeadersAreRead(tty, b);
  }

  lemma RefusedAt(tty: bool, a: seq<Byte>, at: nat)
    requires IndexOf(a, SEPARATOR) == Some(at) && IndexOf(a[..at], UPGRADED).None?
    ensures at + 4 <= |a| && Receive(tty, START, a) == Stream(false, a[at + 4..], [], 1)
  {
    hide IndexOf, Drain;
    FromStart(tty, a);
  }

  lemma RefusalEndsAtBlankLine(tty: bool, stream: seq<Byte>)
    requires !Accepted(stream)
    ensures var n := IndexOf(stream, SEPARATOR).value + 4;
            && Receive(tty, START, stream[..n]) == Stream(false, [], [], 1)
            && Receive(tty, START, stream) == Stream(false, stream[n..], [], 1)
  {
    hide IndexOf, Receive;
    var at := IndexOf(stream, SEPARATOR).value;
    FirstInPrefix(stream, SEPARATOR);
    assert stream[..at + 4][..at] == stream[..at] && stream[..at + 4][at + 4..] == [];
    RefusedAt(tty, stream, at);
    RefusedAt(tty, stream[..at + 4], at);
  }

  lemma SecondHeadersAreRead(tty: bool, b: seq<Byte>)
    requires IndexOf(b, SEPARATOR).Some?
    ensures var s := Receive(tty, Stream(false, [], [], 1), b);
            s.handshakeDone || s.refusals == 2
  {
    hide IndexOf, Drain;
    assert [] + b == b;
    DrainKeepsRest(tty, Stream(true, b[IndexOf(b, SEPARATOR).value + 4..], [], 1));
  }

  lemma TwoReads(tty: bool, a: seq<Byte>, b: seq<Byte>)
    ensures Concat([a, b]) == a + b
    ensures ReceiveAll(tty, START, [a, b]) == Receive(tty, Receive(tty, START, a), b)
  {
    hide Receive;
    assert [a, b][..1] == [a];
    assert Concat([a]) == a;
    assert ReceiveAll(tty, START, [a]) == Receive(tty, START, a);
  }

  lemma PrefixOfPrefix(s: seq<Byte>, t: seq<Byte>, n: nat)
    requires |t| <= n <= |s|
    ensures t <= s[..n] <==> t <= s
  {
    assert s[..n][..|t|] == s[..|t|];
  }

  lemma IndexOfMoves(s: seq<Byte>, t: seq<Byte>)
    requires s != [] && !(t <= s)
    ensures IndexOf(s, t) == if IndexOf(s[1..], t).Some? then Some(IndexOf(s[1..], t).value + 1) else None
  {
  }

  lemma IndexOfStart(s: seq<Byte>, t: seq<Byte>)
    requires t <= s
    ensures IndexOf(s, t) == Some(0)
  {
  }

  lemma IndexOfEmpty(t: seq<Byte>)
    requires t != []
    ensures IndexOf([], t) == None
  {
  }

  lemma {:induction false} FirstInPrefix(s: seq<Byte>, t: seq<Byte>)
    requires t != [] && IndexOf(s, t).Some?
    ensures IndexOf(s[..IndexOf(s, t).value + |t|], t) == IndexOf(s, t)
  {
    hide IndexOf;
    IndexOfEmpty(t);
    var n := IndexOf(s, t).value + |t|;
    PrefixOfPrefix(s, t, n);
    if t <= s {
      IndexOfStart(s, t);
      IndexOfStart(s[..n], t);
    } else {
      IndexOfMoves(s, t);
      FirstInPrefix(s[1..], t);
      assert s[..n][1..] == s[1..][..n - 1];
      IndexOfMoves(s[..n], t);
    }
  }

  /** The handler's outcome is the same for every chunking exactly when the stream is chunk safe. */
  lemma ExactlyTheChunkSafeStreams(tty: bool, stream: seq<Byte>)
    ensures ChunkSafe(stream) <==>
            forall chunks :: Concat(chunks) == stream ==> Same(tty, ReceiveAll(tty, START, chunks), Receive(tty, START, stream))
  {
    if ChunkSafe(stream) {
      forall chunks | Concat(chunks) == stream
        ensures Same(tty, ReceiveAll(tty, START, chunks), Receive(tty, START, stream))
      {
        if Accepted(stream) {
          ChunkingDoesNotMatter(tty, chunks);
        } else {
          assert Concat(chunks) + [] == stream;
          RefusedOnce(tty, chunks, []);
        }
      }
    } else {
      SecondHeadersDependOnChunking(tty, stream);
    }
  }

  // ----- the promise -----

  predicate OccursAt(s: seq<Byte>, t: seq<Byte>, k: nat) {
    k + |t| <= |s| && s[k..k + |t|] == t
  }

  predicate FirstAt(s: seq<Byte>, t: seq<Byte>, n: nat) {
    OccursAt(s, t, n) && forall k: nat :: k < n ==> !OccursAt(s, t, k)
  }

  lemma {:induction false} IndexOfIsFirst(s: seq<Byte>, t: seq<Byte>)
    requires t != []
    ensures IndexOf(s, t).None? ==> forall k: nat :: !OccursAt(s, t, k)
    ensures IndexOf(s, t).Some? ==> FirstAt(s, t, IndexOf(s, t).value)
  {
    if t <= s {
      assert s[..|t|] == t;
    } else if s != [] {
      IndexOfIsFirst(s[1..], t);
      forall k: nat | OccursAt(s, t, k)
        ensures k > 0 && OccursAt(s[1..], t, k - 1)
      {
        assert k == 0 ==> t <= s;
        assert s[1..][k - 1..k - 1 + |t|] == s[k..k + |t|];
      }
      var r := IndexOf(s[1..], t);
      if r.Some? {
        assert s[1..][r.value..r.value + |t|] == s[r.value + 1..r.value + 1 + |t|];
      }
    }
  }

  /** Whether a stream was refused is settled by its first block of headers, however it was cut. */
  lemma {:induction false} RefusedExactlyWhen(tty: bool, chunks: seq<seq<Byte>>)
    ensures var s := ReceiveAll(tty, START, chunks);
            && (s.refusals > 0 <==> !Accepted(Concat(chunks)))
            && (Accepted(Concat(chunks)) ==> (s.handshakeDone <==> IndexOf(Concat(chunks), SEPARATOR).Some?))
            && (IndexOf(Concat(chunks), SEPARATOR).None? ==> s.buffer == Concat(chunks))
    decreases |chunks|
  {
    hide IndexOf, Drain;
    var stream := Concat(chunks);
    FromStart(tty, stream);
    if Accepted(stream) {
      ChunkingDoesNotMatter(tty, chunks);
      if IndexOf(stream, SEPARATOR).Some? {
        DrainKeepsRest(tty, Stream(true, AfterHeaders(stream), [], 0));
      }
    } else if chunks != [] {
      var init, last := chunks[..|chunks| - 1], chunks[|chunks| - 1];
      RefusedExactlyWhen(tty, init);
      var before := ReceiveAll(tty, START, init);
      if Accepted(Concat(init)) {
        if IndexOf(Concat(init), SEPARATOR).Some? {
          SameHeaders(Concat(init), last);
        }
      } else {
        RefusalsStay(tty, before, last);
      }
    } else {
      IndexOfEmpty(SEPARATOR);
    }
  }

  lemma RefusalsStay(tty: bool, s: Stream, chunk: seq<Byte>)
    ensures Receive(tty, s, chunk).refusals >= s.refusals
  {
    hide IndexOf, Drain;
    var t := s.(buffer := s.buffer + chunk);
    DrainKeepsRest(tty, t);
    if IndexOf(t.buffer, SEPARATOR).Some? {
      DrainKeepsRest(tty, t.(buffer := AfterHeaders(t.buffer), handshakeDone := true));
    }
  }

  /**
   The promise, read off the bytes alone: it is pending until CR LF CR LF has
   come, and then resolved exactly when "101" stands somewhere before the first
   of these, and rejected otherwise, however the bytes were cut.
   */
  lemma PromiseTellsTheFirstHeaders(tty: bool, chunks: seq<seq<Byte>>)
    ensures var bytes, ready := Concat(chunks), ReadyOf(ReceiveAll(tty, START, chunks));
            && ((forall k: nat :: !OccursAt(bytes, [13, 10, 13, 10], k)) ==> ready == Pending)
            && forall n: nat :: FirstAt(bytes, [13, 10, 13, 10], n) ==>
                 ready == if exists k: nat :: OccursAt(bytes[..n], [49, 48, 49], k) then Resolved else Rejected
  {
    hide IndexOf, ReceiveAll, OccursAt, Concat;
    var bytes := Concat(chunks);
    assert SEPARATOR == [13, 10, 13, 10] && UPGRADED == [49, 48, 49];
    RefusedExactlyWhen(tty, chunks);
    IndexOfIsFirst(bytes, SEPARATOR);
    forall n: nat | FirstAt(bytes, [13, 10, 13, 10], n)
      ensures IndexOf(bytes, SEPARATOR) == Some(n)
      ensures IndexOf(bytes[..n], UPGRADED).Some? <==> exists k: nat :: OccursAt(bytes[..n], [49, 48, 49], k)
    {
      IndexOfIsFirst(bytes[..n], UPGRADED);
    }
  }

  // ----- the daemon's side -----

  function WriteUInt32BE(n: nat): (s: seq<Byte>)
    requires n < 0x1_0000_0000
    ensures |s| == 4
  {
    [(n / 0x100_0000) as Byte, (n / 0x1_0000 % 256) as Byte, (n / 0x100 % 256) as Byte, (n % 256) as Byte]
  }

  lemma ReadWrite(n: nat)
    requires n < 0x1_0000_0000
    ensures ReadUInt32BE(WriteUInt32BE(n)) == n
  {
    assert n / 0x1_0000 == n / 0x100 / 256 && n / 0x100_0000 == n / 0x1_0000 / 256;
    assert n == n / 0x100 * 256 + n % 256;
    assert n / 0x100 == n / 0x1_0000 * 256 + n / 0x100 % 256;
    assert n / 0x1_0000 == n / 0x100_0000 * 256 + n / 0x1_0000 % 256;
  }

  /** The first of two different bytes decides which length is greater. */
  lemma EarlierBytesWeighMore(s: seq<Byte>, t: seq<Byte>, k: nat)
    requires |s| == |t| == 4 && k < 4 && s[..k] == t[..k] && s[k] < t[k]
    ensures ReadUInt32BE(s) < ReadUInt32BE(t)
  {
    assert forall j :: 0 <= j < k ==> s[j] == s[..k][j] && t[j] == t[..k][j];
  }

  datatype Frame = Frame(stream: Byte, payload: seq<Byte>)

  predicate FitsFrame(f: Frame) {
    |f.payload| < 0x1_0000_0000
  }

  function EncodeFrame(f: Frame): seq<Byte>
    requires FitsFrame(f)
  {
    [f.stream, 0, 0, 0] + WriteUInt32BE(|f.payload|) + f.payload
  }

  function Encode(frames: seq<Frame>): seq<Byte>
    requires forall k :: 0 <= k < |frames| ==> FitsFrame(frames[k])
  {
    if frames == [] then [] else EncodeFrame(frames[0]) + Encode(frames[1..])
  }

  function Payloads(frames: seq<Frame>): seq<seq<Byte>> {
    seq(|frames|, k requires 0 <= k < |frames| => frames[k].payload)
  }

  lemma {:induction false} FramesOfEncode(frames: seq<Frame>)
    requires forall k :: 0 <= k < |frames| ==> FitsFrame(frames[k])
    ensures Frames(Encode(frames)) == (Payloads(frames), [])
  {
    if frames != [] {
      var f, rest := frames[0], Encode(frames[1..]);
      var s := EncodeFrame(f) + rest;
      FramesOfEncode(frames[1..]);
      ReadWrite(|f.payload|);
      assert s[4..8] == WriteUInt32BE(|f.payload|);
      assert FrameLength(s) == Some(8 + |f.payload|);
      assert s[8..8 + |f.payload|] == f.payload && s[8 + |f.payload|..] == rest;
      assert Payloads(frames) == [f.payload] + Payloads(frames[1..]);
    } else {
      assert Payloads(frames) == [];
    }
  }

  /** The blank line after `headers` is the first one, and the headers speak of the upgrade. */
  predicate UpgradeResponse(headers: seq<Byte>) {
    IndexOf(headers + SEPARATOR, SEPARATOR) == Some(|headers|) && IndexOf(headers, UPGRADED).Some?
  }

  lemma AfterUpgrade(tty: bool, headers: seq<Byte>, body: seq<Byte>)
    requires UpgradeResponse(headers)
    ensures Accepted(headers + SEPARATOR + body)
    ensures Receive(tty, START, headers + SEPARATOR + body) == Drain(tty, Stream(true, body, [], 0))
  {
    hide IndexOf, Drain;
    FromStart(tty, headers + SEPARATOR + body);
    SameHeaders(headers + SEPARATOR, body);
    assert (headers + SEPARATOR)[..|headers|] == headers && (headers + SEPARATOR)[|headers| + 4..] == [];
    assert [] + body == body;
  }

  /**
   The frames the daemon multiplexes after its upgrade response, cut into any
   chunks, are delivered once each, whole and in order, and nothing stays behind.
   */
  lemma FramesArrive(headers: seq<Byte>, frames: seq<Frame>, chunks: seq<seq<Byte>>)
    requires UpgradeResponse(headers) && forall k :: 0 <= k < |frames| ==> FitsFrame(frames[k])
    requires Concat(chunks) == headers + SEPARATOR + Encode(frames)
    ensures ReceiveAll(false, START, chunks) == Stream(true, [], Payloads(frames), 0)
  {
    AfterUpgrade(false, headers, Encode(frames));
    ChunkingDoesNotMatter(false, chunks);
    FramesOfEncode(frames);
    assert [] + Payloads(frames) == Payloads(frames);
  }

  /** A TTY container's output arrives byte for byte, however it is cut. */
  lemma RawBytesArrive(headers: seq<Byte>, body: seq<Byte>, chunks: seq<seq<Byte>>)
    requires UpgradeResponse(headers) && Concat(chunks) == headers + SEPARATOR + body
    ensures var s := ReceiveAll(true, START, chunks);
            s.handshakeDone && s.buffer == [] && s.refusals == 0 && Concat(s.delivered) == body
  {
    AfterUpgrade(true, headers, body);
    ChunkingDoesNotMatter(true, chunks);
    ConcatSnoc([], body);
    assert [] + body == body && [] + [body] == [body];
  }

  /** After every read, what stays buffered does not hold a complete frame. */
  lemma {:induction false} NoFrameLeftBehind(chunks: seq<seq<Byte>>)
    ensures var s := ReceiveAll(false, START, chunks); s.handshakeDone ==> FrameLength(s.buffer).None?
    decreases |chunks|
  {
    if chunks != [] {
      NoFrameLeftBehind(chunks[..|chunks| - 1]);
    }
  }
}
