/**
 The byte stream under a connection: however it is cut into reads, the same messages come
 out of it in the same order, and no byte is lost or made up.
 */
module Stream {
  import opened Results
  import opened Bytes
  import opened Utf8Text
  import opened Wire
  import opened Messages
  import opened Session

  /** Every byte the socket will still hand over. */
  function BytesOf(input: seq<Event>): seq<byte> {
    if input == [] then []
    else (if input[0].Chunk? then input[0].bytes else []) + BytesOf(input[1..])
  }

  function StreamOf(c: Conn): seq<byte> {
    c.buf + BytesOf(c.input)
  }

  // ----- conservation, for every input whatever -----

  /** What is read off the front of the stream leaves the rest of it. */
  predicate TakesOff(c: Conn, o: Conn, n: nat) {
    n <= |StreamOf(c)| && StreamOf(o) == StreamOf(c)[n..]
  }

  lemma FillKeepsStream(c: Conn)
    ensures StreamOf(Fill(c).c) == StreamOf(c) || Fill(c).r.Err?
  {
    if c.input != [] && c.input[0].Chunk? {
      assert (c.buf + c.input[0].bytes) + BytesOf(c.input[1..]) == c.buf + BytesOf(c.input);
    }
  }

  lemma FailedFillKeepsStream(c: Conn)
    requires Fill(c).r.Err?
    ensures StreamOf(Fill(c).c) == StreamOf(c)
  {
    if c.input != [] {
      assert [] + BytesOf(c.input[1..]) == BytesOf(c.input[1..]);
    }
  }

  /** What a receive took off the stream: the message it returned, one refused message, or nothing. */
  predicate Took(c: Conn, o: Out<Wired<Message>>, n: nat) {
    && TakesOff(c, o.c, n)
    && (n == 0 || IsMessageLength(StreamOf(c)[..n]))
    && (o.r.Ok? ==> n > 0 && DecodeMessage(StreamOf(c)[..n]) == o.r)
  }

  /**
   Whatever the peer sends, a received message is exactly the bytes taken off the front of
   the stream, as many as its own header declares; a failure takes off one refused message
   or nothing.
   */
  lemma {:induction false} ReceiveConserves(c: Conn) returns (n: nat)
    ensures Took(c, Receive(c), n)
    decreases |c.input|
  {
    hide DecodeMessage, Frame, Utf8, TakeMessage, Fill, BytesOf, IsMessageLength;
    var framed := Frame(c.buf);
    if |c.buf| >= FIXED_HEADER && framed.Ok? && |c.buf| >= framed.value.0 + framed.value.1 {
      n := framed.value.0 + framed.value.1;
      TakeConserves(c, n);
    } else if (|c.buf| >= FIXED_HEADER && framed.Err?) || c.patience == 0 {
      n := 0;
      assert StreamOf(c)[0..] == StreamOf(c);
    } else {
      var less := c.(patience := c.patience - 1);
      assert StreamOf(less) == StreamOf(c);
      FillKeepsStream(less);
      if Fill(less).r.Err? {
        FailedFillKeepsStream(less);
        n := 0;
        assert StreamOf(c)[0..] == StreamOf(c);
      } else {
        n := ReceiveConserves(Fill(less).c);
      }
    }
  }

  /** As long as its own header says. */
  predicate IsMessageLength(bytes: seq<byte>) {
    Frame(bytes).Ok? && Frame(bytes).value.0 + Frame(bytes).value.1 == |bytes|
  }

  lemma TakeConserves(c: Conn, n: nat)
    requires |c.buf| >= FIXED_HEADER && Frame(c.buf).Ok?
    requires n == Frame(c.buf).value.0 + Frame(c.buf).value.1 && n <= |c.buf|
    ensures var o := TakeMessage(c, n);
            && TakesOff(c, o.c, n)
            && StreamOf(c)[..n] == c.buf[..n]
            && IsMessageLength(StreamOf(c)[..n])
            && (o.r.Ok? ==> DecodeMessage(StreamOf(c)[..n]) == o.r)
  {
    hide DecodeMessage;
    assert StreamOf(c)[..n] == c.buf[..n];
    assert c.buf[n..] + BytesOf(c.input) == StreamOf(c)[n..];
    SameFrame(c.buf[..n], c.buf);
  }

  lemma SameFrame(a: seq<byte>, b: seq<byte>)
    requires |a| >= FIXED_HEADER && |b| >= FIXED_HEADER && a[..FIXED_HEADER] == b[..FIXED_HEADER]
    ensures Frame(a) == Frame(b)
  {
    hide Frame;
    FrameOfPrefix(a[..FIXED_HEADER], a);
    FrameOfPrefix(b[..FIXED_HEADER], b);
  }

  // ----- a stream of well-formed messages -----

  predicate Whole(w: seq<byte>) {
    && |w| >= FIXED_HEADER && IsMessageLength(w) && DecodeMessage(w).Ok?
  }

  predicate AllWhole(wires: seq<seq<byte>>) {
    forall i :: 0 <= i < |wires| ==> Whole(wires[i])
  }

  function Concat(wires: seq<seq<byte>>): seq<byte> {
    if wires == [] then [] else wires[0] + Concat(wires[1..])
  }

  /** The message `w` is; of no interest where it is none. */
  function MessageOf(w: seq<byte>): Message {
    match DecodeMessage(w)
    case Ok(m) => m
    case Err(_) => Message(0, None, None, None, [], 0, [])
  }

  /** Descriptors that travel with the message beginning at offset `p` of the stream. */
  function FdsAt(wires: seq<seq<byte>>, p: int): nat {
    if wires == [] then 0
    else if p == 0 then MessageOf(wires[0]).unixFds
    else if p < |wires[0]| then 0
    else FdsAt(wires[1..], p - |wires[0]|)
  }

  /** No message with descriptors begins strictly between `lo` and `hi`. */
  predicate NoFdsWithin(wires: seq<seq<byte>>, lo: int, hi: int) {
    forall p :: lo < p < hi ==> FdsAt(wires, p) == 0
  }

  /**
   How the kernel hands over a stream from offset `lo` on: non-empty reads, each with the
   descriptors of the message that begins where it begins, and a message with descriptors
   begins a read of its own. That is more than keeping the descriptors of two messages in
   separate reads, and it is what the program needs: see `OwnDescriptorsOnly`.
   */
  predicate Delivered(wires: seq<seq<byte>>, lo: int, input: seq<Event>)
    decreases input
  {
    input == [] ||
    (&& input[0].Chunk? && input[0].bytes != []
     && input[0].fds == FdsAt(wires, lo)
     && NoFdsWithin(wires, lo, lo + |input[0].bytes|)
     && Delivered(wires, lo + |input[0].bytes|, input[1..]))
  }

  /** The connection is in the middle of `wires`: some of it buffered, the rest to come. */
  predicate Fed(c: Conn, wires: seq<seq<byte>>) {
    && AllWhole(wires)
    && StreamOf(c) == Concat(wires)
    && c.fdsSeen == (if c.buf == [] then 0 else FdsAt(wires, 0))
    && NoFdsWithin(wires, 0, |c.buf|)
    && Delivered(wires, |c.buf|, c.input)
  }

  lemma {:induction false} DeliveredAfterFirst(wires: seq<seq<byte>>, lo: int, input: seq<Event>)
    requires wires != [] && 0 < |wires[0]| <= lo && Delivered(wires, lo, input)
    ensures Delivered(wires[1..], lo - |wires[0]|, input)
    decreases input
  {
    hide DecodeMessage, Frame;
    if input != [] {
      var hi := lo + |input[0].bytes|;
      DeliveredAfterFirst(wires, hi, input[1..]);
      forall p | lo - |wires[0]| < p < hi - |wires[0]|
        ensures FdsAt(wires[1..], p) == 0
      {
        assert FdsAt(wires, p + |wires[0]|) == 0;
      }
    }
  }

  /** One receive on a fed connection: its first message, however it was cut up. */
  lemma {:induction false} ReceiveFed(c: Conn, wires: seq<seq<byte>>)
    requires Fed(c, wires) && wires != [] && c.patience >= |c.input|
    ensures var o := Receive(c);
            && o.r == Ok(MessageOf(wires[0]))
            && Fed(o.c, wires[1..])
            && o.c.patience - |o.c.input| == c.patience - |c.input|
            && |o.c.input| <= |c.input|
    decreases |c.input|
  {
    hide DecodeMessage, Frame, Utf8, Receive, Delivered, NoFdsWithin, FdsAt, TakeMessage, Fill;
    var w := wires[0];
    FrontOf(c, wires);
    if |c.buf| >= |w| {
      assert c.buf[..|w|] == StreamOf(c)[..|w|];
      ReceiveWhole(c, w);
      TakeFed(c, wires);
    } else {
      assert c.input == [] ==> StreamOf(c) == c.buf;
      var less := c.(patience := c.patience - 1);
      LessPatient(c, wires);
      FillFed(less, wires);
      ReceivePart(c, w);
      ReceiveFed(Fill(less).c, wires);
    }
  }

  lemma FrontOf(c: Conn, wires: seq<seq<byte>>)
    requires StreamOf(c) == Concat(wires) && wires != []
    ensures |StreamOf(c)| >= |wires[0]| && StreamOf(c)[..|wires[0]|] == wires[0]
  {
    assert Concat(wires)[..|wires[0]|] == wires[0];
  }

  lemma LessPatient(c: Conn, wires: seq<seq<byte>>)
    requires Fed(c, wires) && c.patience > 0
    ensures Fed(c.(patience := c.patience - 1), wires)
  {
    hide Delivered, NoFdsWithin, FdsAt, Concat;
    assert StreamOf(c.(patience := c.patience - 1)) == StreamOf(c);
  }

  lemma ReceiveWhole(c: Conn, w: seq<byte>)
    requires Whole(w) && |c.buf| >= |w| && c.buf[..|w|] == w
    ensures Receive(c) == TakeMessage(c, |w|)
  {
    hide DecodeMessage, Frame, TakeMessage;
    assert c.buf[..FIXED_HEADER] == w[..FIXED_HEADER];
    SameFrame(c.buf, w);
  }

  /**
   A whole message in the buffer is returned just when the descriptors that came with what was
   read so far are its own: read together with the beginning of one that carries some, it is
   refused.
   */
  lemma OwnDescriptorsOnly(c: Conn, w: seq<byte>)
    requires Whole(w) && |c.buf| >= |w| && c.buf[..|w|] == w
    ensures Receive(c).r.Ok? <==> c.fdsSeen == MessageOf(w).unixFds
  {
    hide DecodeMessage, Frame, Receive, IsMessageLength;
    ReceiveWhole(c, w);
  }

  lemma ReceivePart(c: Conn, w: seq<byte>)
    requires Whole(w) && |c.buf| < |w| <= |StreamOf(c)| && StreamOf(c)[..|w|] == w && c.patience > 0
    ensures var filled := Fill(c.(patience := c.patience - 1));
            filled.r.Ok? ==> Receive(c) == Receive(filled.c)
  {
    hide DecodeMessage, Frame, TakeMessage;
    if |c.buf| >= FIXED_HEADER {
      assert c.buf[..FIXED_HEADER] == StreamOf(c)[..FIXED_HEADER] == w[..FIXED_HEADER];
      SameFrame(c.buf, w);
    }
  }

  lemma TakeFed(c: Conn, wires: seq<seq<byte>>)
    requires Fed(c, wires) && wires != [] && |c.buf| >= |wires[0]| && c.buf[..|wires[0]|] == wires[0]
    ensures var o := TakeMessage(c, |wires[0]|);
            o.r == Ok(MessageOf(wires[0])) && Fed(o.c, wires[1..])
  {
    hide DecodeMessage, Frame, Utf8;
    var w := wires[0];
    var o := TakeMessage(c, |w|);
    assert c.fdsSeen == MessageOf(w).unixFds;
    assert StreamOf(o.c) == Concat(wires[1..]) by {
      assert StreamOf(o.c) == StreamOf(c)[|w|..];
      assert Concat(wires)[|w|..] == Concat(wires[1..]);
    }
    DeliveredAfterFirst(wires, |c.buf|, c.input);
    forall p | 0 <= p < |o.c.buf|
      ensures FdsAt(wires[1..], p) == 0
    {
      assert FdsAt(wires, p + |w|) == 0;
    }
  }

  lemma FillFed(c: Conn, wires: seq<seq<byte>>)
    requires Fed(c, wires) && wires != [] && |c.buf| < |wires[0]| && c.input != []
    ensures Fill(c).r.Ok? && Fed(Fill(c).c, wires) && |Fill(c).c.input| == |c.input| - 1
  {
    hide DecodeMessage, Frame, Utf8;
    var o := Fill(c).c;
    FillKeepsStream(c);
    var hi := |o.buf|;
    forall p | 0 < p < hi
      ensures FdsAt(wires, p) == 0
    {
      if p > |c.buf| {
        assert NoFdsWithin(wires, |c.buf|, hi);
      }
    }
  }

  /** `n` receives in a row, stopping at a failure. */
  function ReceiveMany(c: Conn, n: nat): (seq<Message>, Conn)
    decreases n
  {
    if n == 0 then ([], c)
    else
      var first := Receive(c);
      if first.r.Err? then ([], first.c)
      else
        var rest := ReceiveMany(first.c, n - 1);
        ([first.r.value] + rest.0, rest.1)
  }

  function MessagesOf(wires: seq<seq<byte>>): (ms: seq<Message>)
    ensures |ms| == |wires|
    ensures forall i :: 0 <= i < |ms| ==> ms[i] == MessageOf(wires[i])
  {
    seq(|wires|, i requires 0 <= i < |wires| => MessageOf(wires[i]))
  }

  /**
   Chunk independence: however the concatenation of well-formed messages is cut into
   reads, as many receives return exactly those messages, in order, and use it all up.
   */
  lemma {:induction false} ChunksDoNotMatter(c: Conn, wires: seq<seq<byte>>)
    requires Fed(c, wires) && c.patience >= |c.input|
    ensures ReceiveMany(c, |wires|).0 == MessagesOf(wires)
    ensures Fed(ReceiveMany(c, |wires|).1, [])
    decreases |wires|
  {
    hide Receive, DecodeMessage, Frame, IsMessageLength, Delivered, NoFdsWithin, FdsAt, StreamOf, Concat, Fed,
         MessageOf,
         MessagesOf;
    if wires != [] {
      ReceiveFed(c, wires);
      ChunksDoNotMatter(Receive(c).c, wires[1..]);
      MessagesCons(wires);
    } else {
      assert |MessagesOf(wires)| == 0;
    }
  }

  lemma MessagesCons(wires: seq<seq<byte>>)
    requires wires != []
    ensures MessagesOf(wires) == [MessageOf(wires[0])] + MessagesOf(wires[1..])
  {
    hide MessageOf;
  }

  // ----- the authentication lines leave the stream where the messages begin -----

  lemma {:induction false} LineEndOfPrefix(a: seq<byte>, b: seq<byte>, from: nat)
    requires a <= b && LineEnd(b, from).Some?
    ensures |a| >= LineEnd(b, from).value + 2 ==> LineEnd(a, from) == LineEnd(b, from)
    ensures |a| < LineEnd(b, from).value + 2 ==> LineEnd(a, from).None?
    decreases |b| - from
  {
    if from + 1 < |b| && !(b[from] == CR && b[from + 1] == LF) && from + 1 < |a| {
      LineEndOfPrefix(a, b, from + 1);
    }
  }

  lemma LineStep(c: Conn)
    ensures match LineEnd(c.buf, 0)
            case Some(end) =>
              Line(c) == Out(if Ascii(c.buf[..end]) then Ok(c.buf[..end]) else Err(Auth(c.buf[..end])),
                             c.(buf := c.buf[end + 2..]))
            case None =>
              |c.buf| <= MAX_AUTH_LINE && Fill(c).r.Ok? ==> Line(c) == Line(Fill(c).c)
  {
    hide Fill, Ascii, LineEnd;
  }

  predicate AllChunks(input: seq<Event>) {
    forall i :: 0 <= i < |input| ==> input[i].Chunk? && input[i].bytes != []
  }

  /**
   The first line of the stream is what `line` returns, however it arrives, and exactly it
   and its ending are taken off: what follows is where the next reader starts.
   */
  lemma {:induction false} LineTakesLine(c: Conn)
    requires AllChunks(c.input)
    requires LineEnd(StreamOf(c), 0).Some? && LineEnd(StreamOf(c), 0).value < 4096
    ensures var end := LineEnd(StreamOf(c), 0).value;
            var line := StreamOf(c)[..end];
            && Line(c).r == (if Ascii(line) then Ok(line) else Err(Auth(line)))
            && StreamOf(Line(c).c) == StreamOf(c)[end + 2..]
    decreases |c.input|
  {
    hide Line, Fill, Ascii, LineEnd;
    var s := StreamOf(c);
    var end := LineEnd(s, 0).value;
    assert c.buf <= s;
    LineEndOfPrefix(c.buf, s, 0);
    LineStep(c);
    if |c.buf| >= end + 2 {
      assert c.buf[..end] == s[..end];
      assert c.buf[end + 2..] + BytesOf(c.input) == s[end + 2..];
    } else {
      assert c.input == [] ==> s == c.buf;
      ChunkIsThere(c);
      FillKeepsStream(c);
      LineTakesLine(Fill(c).c);
    }
  }

  lemma ChunkIsThere(c: Conn)
    requires c.input != [] && AllChunks(c.input)
    ensures Fill(c).r.Ok? && AllChunks(Fill(c).c.input)
  {
  }

  lemma {:induction false} NoEndInPrefix(a: seq<byte>, b: seq<byte>, from: nat)
    requires a <= b && LineEnd(b, from).None?
    ensures LineEnd(a, from).None?
    decreases |b| - from
  {
    if from + 1 < |a| {
      NoEndInPrefix(a, b, from + 1);
    }
  }

  /** More than 4096 bytes without the end of a line are refused, whatever the peer goes on to send. */
  lemma {:induction false} EndlessIsRefused(c: Conn)
    requires AllChunks(c.input) && LineEnd(StreamOf(c), 0).None? && |StreamOf(c)| > 4096
    ensures Line(c).r == Err(Auth([]))
    decreases |c.input|
  {
    hide Line, Fill, Ascii, LineEnd;
    assert c.buf <= StreamOf(c);
    NoEndInPrefix(c.buf, StreamOf(c), 0);
    LineRefuses(c);
    if |c.buf| <= 4096 {
      assert c.input == [] ==> StreamOf(c) == c.buf;
      LineStep(c);
      ChunkIsThere(c);
      FillKeepsStream(c);
      EndlessIsRefused(Fill(c).c);
    }
  }

  lemma LineRefuses(c: Conn)
    ensures LineEnd(c.buf, 0).None? && |c.buf| > 4096 ==> Line(c).r == Err(Auth([]))
  {
    hide Fill, Ascii, LineEnd;
  }

  /** A reader that has not enough ends as the connection does: closed, broken, or silent to the deadline. */
  lemma ReadersEnd(c: Conn)
    ensures c.input == [] ==> Fill(c).r == Err(Timeout)
    ensures c.input != [] && c.input[0].Broken? ==> Fill(c).r == Err(Io)
    ensures c.input != [] && c.input[0].Chunk? && c.input[0].bytes == [] ==> Fill(c).r == Err(Closed)
    ensures |c.buf| < 16 && c.patience > 0 && Fill(c.(patience := c.patience - 1)).r.Err? ==>
              Receive(c).r == Err(Fill(c.(patience := c.patience - 1)).r.error)
    ensures LineEnd(c.buf, 0).None? && |c.buf| <= 4096 && Fill(c).r.Err? ==> Line(c).r == Err(Fill(c).r.error)
  {
    hide TakeMessage, LineEnd, Ascii;
  }
}
