/**
 A connection from its first byte on: the two authentication lines, the name the bus gives,
 and whole runs of calls behind them, over one stream cut into reads at will.
 */
module Opening {
  import opened Results
  import opened Bytes
  import opened Utf8Text
  import opened Wire
  import opened Messages
  import opened Session
  import opened SessionSafety
  import opened Stream
  import opened CallFormat
  import opened SessionRuns

  // ----- the invariant holds from the start -----

  lemma PassingKeepsInv(c: Conn, fdPassing: bool)
    requires Inv(c)
    ensures Inv(c.(fdPassing := fdPassing))
  {
    hide Utf8, Decode, Spoken;
    var o := c.(fdPassing := fdPassing);
    forall x | x in o.owners
      ensures Vouched(o, x)
    {
      var k, j :| 0 <= k < |c.sent| && c.sent[k].after <= j < |c.heard| && VouchedBy(c.sent[k], c.heard[j], x);
      assert VouchedBy(o.sent[k], o.heard[j], x);
    }
  }

  lemma LineKeeps(c: Conn)
    requires Inv(c)
    ensures Inv(Line(c).c)
  {
    hide Line, Vouched, Utf8;
    InvLater(c, Line(c).c);
  }

  /** The lines change nothing the invariant speaks of, whatever the peer sends in their place. */
  lemma AuthenticateKeeps(c: Conn)
    requires Inv(c)
    ensures Inv(Authenticate(c).c)
  {
    hide Line, Inv, Utf8;
    LineKeeps(c);
    LineKeeps(Line(c).c);
    PassingKeepsInv(Line(Line(c).c).c, true);
  }

  /** The connection's own name is one the bus itself gave, in answer to the greeting. */
  lemma NameIsTheBuss(c: Conn)
    requires Inv(c)
    ensures var o := Hello(c);
            && Inv(o.c)
            && (o.r.Ok? ==>
                  && IsUnique(o.r.value) && |o.c.sent| > |c.sent| && |o.c.heard| > |c.heard|
                  && var s, m := Last(o.c.sent), Last(o.c.heard);
                  && s.q == GREETING && s.to == BUS && |o.c.heard| > s.after
                  && m.kind == METHOD_RETURN && m.sender == Some(BUS) && m.replySerial == Some(s.serial)
                  && Decode(m.signature, m.body) == Ok([Value.Str(o.r.value)]))
  {
    hide Call, Decode, Inv, Vouched, Utf8;
    CallKeeps(c, GREETING);
    AnswersAreGenuine(c, GREETING);
    var o := Hello(c);
    if o.r.Ok? {
      assert Call(c, GREETING).r.value == [Value.Str(o.r.value)];
    }
  }

  /** Every connection there is keeps the invariant: opened on any input, and through any calls made on it. */
  lemma NewConnection(input: seq<Event>, patience: nat, calls: seq<Request>)
    ensures var o := Open(NewConn(input, patience));
            && Inv(o.c) && Inv(Run(o.c, calls, patience).c)
  {
    hide Authenticate, Hello, Run, Vouched, Utf8;
    var c := NewConn(input, patience);
    assert Inv(c);
    AuthenticateKeeps(c);
    NameIsTheBuss(Authenticate(c).c);
    RunKeepsInv(Open(c).c, calls, patience);
  }

  // ----- the lines, and the messages right behind them -----

  /** Text the bus can send as one line. */
  predicate OneLine(line: seq<byte>) {
    Ascii(line) && |line| < 4096 && LineEnd(line + [CR, LF], 0) == Some(|line|)
  }

  function Ended(line: seq<byte>): seq<byte> {
    line + [CR, LF]
  }

  /**
   The connection still has the lines `front` to read before `wires`: some of it buffered,
   the rest to come, descriptors with no read but one a message begins.
   */
  predicate Ahead(c: Conn, front: seq<byte>, wires: seq<seq<byte>>) {
    && AllWhole(wires)
    && StreamOf(c) == front + Concat(wires)
    && c.fdsSeen == 0
    && NoFdsWithin(wires, -1, |c.buf| - |front|)
    && Delivered(wires, |c.buf| - |front|, c.input)
  }

  lemma {:induction false} LineEndIs(a: seq<byte>, b: seq<byte>, from: nat, k: nat)
    requires a <= b && LineEnd(a, from) == Some(k)
    ensures LineEnd(b, from) == Some(k)
    decreases |b| - from
  {
    if a[from] != CR || a[from + 1] != LF {
      LineEndIs(a, b, from + 1, k);
    }
  }

  lemma NoneBefore(wires: seq<seq<byte>>, p: int)
    requires p < 0
    ensures FdsAt(wires, p) == 0
  {
    hide MessageOf;
  }

  /** What is read while a line is not complete carries no descriptors. */
  lemma FillAhead(c: Conn, front: seq<byte>, wires: seq<seq<byte>>)
    requires Ahead(c, front, wires) && |c.buf| < |front|
    ensures Fill(c).r.Ok? && Ahead(Fill(c).c, front, wires) && |Fill(c).c.input| == |c.input| - 1
  {
    hide Whole, FdsAt, Concat;
    var o := Fill(c).c;
    assert c.input == [] ==> StreamOf(c) == c.buf;
    FillKeepsStream(c);
    NoneBefore(wires, |c.buf| - |front|);
    forall p | -1 < p < |o.buf| - |front|
      ensures FdsAt(wires, p) == 0
    {
      assert NoFdsWithin(wires, |c.buf| - |front|, |o.buf| - |front|);
    }
  }

  lemma TakenOff(c: Conn, line: seq<byte>, rest: seq<byte>, wires: seq<seq<byte>>)
    requires Ahead(c, Ended(line) + rest, wires) && |c.buf| >= |line| + 2
    ensures c.buf[..|line|] == line && Ahead(c.(buf := c.buf[|line| + 2..]), rest, wires)
  {
    hide Whole, FdsAt, NoFdsWithin, Delivered, Concat;
    var s, next := StreamOf(c), c.(buf := c.buf[|line| + 2..]);
    assert s == line + ([CR, LF] + (rest + Concat(wires)));
    assert c.buf[..|line|] == s[..|line|];
    assert StreamOf(next) == s[|line| + 2..];
    assert |next.buf| - |rest| == |c.buf| - |Ended(line) + rest|;
  }

  /** One line read, what follows it is next, however the two are cut up. */
  lemma {:induction false} LineRead(c: Conn, line: seq<byte>, rest: seq<byte>, wires: seq<seq<byte>>)
    requires Ahead(c, Ended(line) + rest, wires) && OneLine(line)
    ensures var o := Line(c);
            o.r == Ok(line) && Ahead(o.c, rest, wires) && |o.c.input| <= |c.input|
    decreases |c.input|
  {
    hide Ahead, Ascii, Fill, Line;
    var s := StreamOf(c);
    FirstLine(c, line, rest, wires);
    LineEndOfPrefix(c.buf, s, 0);
    LineStep(c);
    if |c.buf| >= |line| + 2 {
      TakenOff(c, line, rest, wires);
    } else {
      FillAhead(c, Ended(line) + rest, wires);
      LineRead(Fill(c).c, line, rest, wires);
    }
  }

  lemma FirstLine(c: Conn, line: seq<byte>, rest: seq<byte>, wires: seq<seq<byte>>)
    requires Ahead(c, Ended(line) + rest, wires) && OneLine(line)
    ensures c.buf <= StreamOf(c) && LineEnd(StreamOf(c), 0) == Some(|line|)
  {
    hide Whole, FdsAt, NoFdsWithin, Delivered, Concat, LineEnd;
    assert StreamOf(c) == Ended(line) + (rest + Concat(wires));
    LineEndIs(Ended(line), StreamOf(c), 0, |line|);
  }

  /** Behind the last line the connection is at the beginning of the messages. */
  lemma AheadOfNothing(c: Conn, wires: seq<seq<byte>>)
    requires Ahead(c, [], wires)
    ensures Fed(c, wires)
  {
    hide Whole, FdsAt, Delivered, Concat;
    assert [] + Concat(wires) == Concat(wires);
    if c.buf != [] {
      assert FdsAt(wires, 0) == 0;
    }
  }

  /** What two lines of the bus come to. */
  function Verdict(first: seq<byte>, second: seq<byte>): Wired<()> {
    if REJECTED <= first then Err(AuthRejected(TrimBack(TrimFront(first[|REJECTED|..]))))
    else if !(ACCEPTED <= first) then Err(Auth(first))
    else if second == AGREED || REFUSED <= second then Ok(())
    else Err(Auth(second))
  }

  /**
   The two lines are judged as they were sent, however they arrive; descriptors can be
   passed exactly if the bus agreed to it, and the next read is the first message's.
   */
  lemma LinesAreJudged(c: Conn, first: seq<byte>, second: seq<byte>, wires: seq<seq<byte>>)
    requires Ahead(c, Ended(first) + Ended(second), wires) && OneLine(first) && OneLine(second) && !c.fdPassing
    ensures var o := Authenticate(c);
            && o.r == Verdict(first, second)
            && |o.c.input| <= |c.input|
            && (o.r.Ok? ==> Fed(o.c, wires) && o.c.fdPassing == (second == AGREED))
  {
    hide Ahead, Line, Fed, OneLine, Utf8;
    LineRead(c, first, Ended(second), wires);
    var next := Line(c).c;
    assert Ended(second) + [] == Ended(second);
    LineRead(next, second, [], wires);
    var last := Line(next).c;
    AheadOfNothing(last, wires);
    SameFeed(last, wires, last.(fdPassing := true));
  }

  // ----- the whole life of a connection -----

  /** Both connections opened, at the same place of their streams. */
  lemma OpenTwins(
    c1: Conn, w1: seq<seq<byte>>, c2: Conn, w2: seq<seq<byte>>, trusted: set<Text>)
    returns (v1: seq<seq<byte>>, v2: seq<seq<byte>>)
    requires Twins(c1, w1, c2, w2, trusted) && BUS in trusted
    ensures var o1, o2 := Hello(c1), Hello(c2);
            && o1.r == o2.r && Twins(o1.c, v1, o2.c, v2, trusted)
            && Spent(c1, w1, o1.c, v1) && Spent(c2, w2, o2.c, v2)
  {
    hide Call, Twins, Utf8;
    BusOwnsItself(c1);
    v1, v2 := CallTwins(c1, w1, c2, w2, trusted, GREETING);
  }

  /** What is asked of a stream: two lines the bus can send, the messages behind them, and time for all of it. */
  predicate Offers(
    input: seq<Event>, first: seq<byte>, second: seq<byte>, wires: seq<seq<byte>>, patience: nat)
  {
    && OneLine(first) && OneLine(second)
    && Ahead(NewConn(input, patience), Ended(first) + Ended(second), wires)
    && patience >= |input| + |wires|
  }

  /**
   Strangers do not matter from the first byte on: two connections opened on the same lines
   and on messages that agree on what the bus and the owners it named say, cut into reads in
   any way, get the same name or the same refusal, and every call after that the same answer.
   */
  lemma StrangersNeverMatter(
    input1: seq<Event>, w1: seq<seq<byte>>, input2: seq<Event>, w2: seq<seq<byte>>,
    first: seq<byte>, second: seq<byte>, trusted: set<Text>, calls: seq<Request>, patience: nat)
    requires Offers(input1, first, second, w1, patience) && Offers(input2, first, second, w2, patience)
    requires Agree(w1, w2, trusted) && BUS in trusted
    requires Verdict(first, second).Ok? ==> Resolves(Open(NewConn(input1, patience)).c, calls, patience, trusted)
    ensures var o1, o2 := Open(NewConn(input1, patience)), Open(NewConn(input2, patience));
            && o1.r == o2.r
            && (Verdict(first, second).Ok? ==> Run(o1.c, calls, patience).r == Run(o2.c, calls, patience).r)
            && (Verdict(first, second).Err? ==> o1.r == Err(Local(Verdict(first, second).error)))
  {
    hide Authenticate, Hello, Run, Fed, Agree, Ahead, OneLine, Resolves, Utf8, Verdict, AllWhole;
    var c1, c2 := NewConn(input1, patience), NewConn(input2, patience);
    LinesAreJudged(c1, first, second, w1);
    LinesAreJudged(c2, first, second, w2);
    var a1, a2 := Authenticate(c1), Authenticate(c2);
    if a1.r.Ok? {
      var v1, v2 := OpenTwins(a1.c, w1, a2.c, w2, trusted);
      StrangersDoNotMatter(Hello(a1.c).c, v1, Hello(a2.c).c, v2, trusted, calls, patience);
    }
  }
}
