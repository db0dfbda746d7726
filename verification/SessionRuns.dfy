/**
 Whole runs of the client against a bus any peer can send through: what comes from anyone
 but the bus and the owners it named changes nothing, however the stream is cut up.
 */
module SessionRuns {
  import opened Results
  import opened Bytes
  import opened Utf8Text
  import opened Wire
  import opened Messages
  import opened Session
  import opened SessionSafety
  import opened Stream
  import opened CallFormat
  import opened Format

  // ----- an answer is genuine -----

  /**
   A success is a METHOD_RETURN, heard after this very call went out, from the peer the call
   was addressed to, which is the one the bus named. A refusal is an ERROR, heard after what
   it answers: either this call, and then it is from that peer or from the bus, or the lookup
   or the starting of the name, and then it is from the bus alone.
   */
  lemma AnswersAreGenuine(c: Conn, q: Request)
    requires Inv(c)
    ensures var o := Call(c, q);
            o.r.Ok? ==>
              && |o.c.sent| > |c.sent| && |o.c.heard| > |c.heard|
              && var s, m := Last(o.c.sent), Last(o.c.heard);
              && s.q == q && Spoken(s) && Addressed(o.c, q.dest, s.to) && |o.c.heard| > s.after
              && m.kind == METHOD_RETURN && m.sender == Some(s.to) && m.replySerial == Some(s.serial)
              && Decode(m.signature, m.body) == Ok(o.r.value)
    ensures var o := Call(c, q);
            o.r.Err? && o.r.error.Remote? ==>
              && |o.c.sent| > |c.sent| && |o.c.heard| > |c.heard|
              && var s, m := Last(o.c.sent), Last(o.c.heard);
              && m.kind == ERROR && m.replySerial == Some(s.serial) && m.errorName == Some(o.r.error.name)
              && Spoken(s) && |o.c.heard| > s.after
              && (|| (s.q == q && Addressed(o.c, q.dest, s.to) && (m.sender == Some(s.to) || m.sender == Some(BUS)))
                  || (!OwnsItself(q.dest) && (s.q == Asking(q.dest) || s.q == Starting(q.dest)) && s.to == BUS
                      && m.sender == Some(BUS)))
  {
    hide Call, Decode, Inv, Vouched, Utf8, OwnsItself, Spoken;
    CallKeeps(c, q);
    LastIsSpoken(Call(c, q).c);
  }

  lemma LastIsSpoken(c: Conn)
    requires Inv(c)
    ensures c.sent != [] ==> Spoken(Last(c.sent))
  {
    hide Spoken, CacheOk, SerialsOk;
  }

  /** After "nobody is there", under either of its names, the name that was called is not cached. */
  lemma GoneIsForgotten(c: Conn, q: Request)
    requires Inv(c) && Call(c, q).r.Err? && Call(c, q).r.error.Remote?
    requires || SpelledOut(Call(c, q).r.error.name, "org.freedesktop.DBus.Error.NameHasNoOwner")
             || SpelledOut(Call(c, q).r.error.name, "org.freedesktop.DBus.Error.ServiceUnknown")
    ensures forall x :: x in Call(c, q).c.owners ==> x.name != q.dest
  {
    GoneIsSpelled(Call(c, q).r);
    GoneKeeps(c, q);
  }

  lemma GoneIsSpelled(r: Answer<seq<Value>>)
    ensures SaysGone(r) <==>
              r.Err? && r.error.Remote? &&
              (|| SpelledOut(r.error.name, "org.freedesktop.DBus.Error.NameHasNoOwner")
               || SpelledOut(r.error.name, "org.freedesktop.DBus.Error.ServiceUnknown"))
  {
    hide SpelledOut, Utf8;
    NoOwnerIsSpelled();
    ServiceUnknownIsSpelled();
    if r.Err? && r.error.Remote? {
      SpelledOnce(NO_OWNER, r.error.name, "org.freedesktop.DBus.Error.NameHasNoOwner");
      SpelledOnce(SERVICE_UNKNOWN, r.error.name, "org.freedesktop.DBus.Error.ServiceUnknown");
    }
  }

  lemma GoneKeeps(c: Conn, q: Request)
    requires Inv(c) && SaysGone(Call(c, q).r)
    ensures forall x :: x in Call(c, q).c.owners ==> x.name != q.dest
  {
    hide Call, Inv;
    CallKeeps(c, q);
  }

  // ----- deleting strangers' messages -----

  predicate IsFrom(m: Message, trusted: set<Text>) {
    m.sender.Some? && m.sender.value in trusted
  }

  /** The messages of `wires` whose sender is in `trusted`. */
  function From(wires: seq<seq<byte>>, trusted: set<Text>): seq<Message> {
    if wires == [] then []
    else
      var m := MessageOf(wires[0]);
      (if IsFrom(m, trusted) then [m] else []) + From(wires[1..], trusted)
  }

  /** The bus stamps every message it passes on with its sender. */
  predicate Stamped(wires: seq<seq<byte>>) {
    forall i :: 0 <= i < |wires| ==> MessageOf(wires[i]).sender.Some?
  }

  /** `w2` holds what the trusted senders say in `w1`, and nothing else. */
  predicate Agree(w1: seq<seq<byte>>, w2: seq<seq<byte>>, trusted: set<Text>) {
    Stamped(w1) && From(w1, trusted) == MessagesOf(w2)
  }

  lemma AgreeHead(w1: seq<seq<byte>>, w2: seq<seq<byte>>, trusted: set<Text>)
    requires Agree(w1, w2, trusted) && w1 != []
    ensures MessageOf(w1[0]).sender.Some?
    ensures if IsFrom(MessageOf(w1[0]), trusted)
            then w2 != [] && MessageOf(w2[0]) == MessageOf(w1[0]) && Agree(w1[1..], w2[1..], trusted)
            else Agree(w1[1..], w2, trusted)
  {
    hide MessageOf;
    var m := MessageOf(w1[0]);
    assert forall i :: 0 <= i < |w1| - 1 ==> w1[1..][i] == w1[i + 1];
    if IsFrom(m, trusted) {
      assert MessagesOf(w2) == [m] + From(w1[1..], trusted);
      assert |MessagesOf(w2)| > 0;
      assert MessagesOf(w2)[0] == m;
      assert MessagesOf(w2[1..]) == MessagesOf(w2)[1..];
    } else {
      assert From(w1, trusted) == From(w1[1..], trusted);
    }
  }

  lemma AgreeNil(w2: seq<seq<byte>>, trusted: set<Text>)
    requires Agree([], w2, trusted)
    ensures w2 == []
  {
    hide MessageOf;
    assert |MessagesOf(w2)| == 0;
  }

  /** The same messages sent, whatever was heard before each. */
  predicate SameSent(a: seq<Sent>, b: seq<Sent>) {
    |a| == |b| && forall i :: 0 <= i < |a| ==> a[i].(after := 0) == b[i].(after := 0)
  }

  /** A client's own state: all of it but the stream, the clock and what it has heard. */
  predicate SameClient(c1: Conn, c2: Conn) {
    && c1.owners == c2.owners && c1.serial == c2.serial && c1.drawn == c2.drawn
    && c1.fdPassing == c2.fdPassing && SameSent(c1.sent, c2.sent)
  }

  /** The clock is not what ends the run: it can be read once per message and once per read. */
  predicate Ample(c: Conn, wires: seq<seq<byte>>) {
    c.patience >= |c.input| + |wires|
  }

  /** The same client on two streams that agree on what the trusted senders say. */
  predicate Twins(c1: Conn, w1: seq<seq<byte>>, c2: Conn, w2: seq<seq<byte>>, trusted: set<Text>) {
    && Fed(c1, w1) && Fed(c2, w2) && Ample(c1, w1) && Ample(c2, w2) && SameClient(c1, c2)
    && Agree(w1, w2, trusted)
  }

  lemma {:induction false} DeliveredBytes(wires: seq<seq<byte>>, lo: int, input: seq<Event>)
    requires Delivered(wires, lo, input)
    ensures BytesOf(input) == [] ==> input == []
  {
    hide Whole, NoFdsWithin;
    if input != [] {
      assert BytesOf(input) == input[0].bytes + BytesOf(input[1..]);
    }
  }

  /** With no message left, nothing is buffered and nothing will come. */
  lemma RunDry(c: Conn)
    requires Fed(c, [])
    ensures c.buf == [] && c.input == []
  {
    hide Whole, Delivered, NoFdsWithin;
    assert |StreamOf(c)| == |c.buf| + |BytesOf(c.input)|;
    DeliveredBytes([], |c.buf|, c.input);
  }

  lemma ReceiveNothing(c: Conn)
    requires c.buf == [] && c.input == []
    ensures Receive(c).r == Err(Timeout)
    ensures Receive(c).c == c.(patience := Receive(c).c.patience)
  {
    hide DecodeMessage, Frame;
  }

  /** One turn of the loop on a fed connection. */
  lemma AwaitStep(c: Conn, wires: seq<seq<byte>>, serial: u32, owner: Text, dest: Text) returns (next: Conn)
    requires Fed(c, wires) && wires != [] && Ample(c, wires)
    ensures Fed(next, wires[1..]) && Ample(next, wires[1..]) && SameClient(c, next)
    ensures |next.input| <= |c.input|
    ensures match Judge(MessageOf(wires[0]), serial, owner)
            case None => Await(c, serial, owner, dest) == Await(next, serial, owner, dest)
            case Some(r) =>
              Await(c, serial, owner, dest)
                == Out(r, if SaysGone(r) then next.(owners := Forget(next.owners, dest)) else next)
  {
    hide Fed, Receive, Judge, Forget, Whole, Utf8;
    FedSooner(c, wires);
    ReceiveFed(c.(patience := c.patience - 1), wires);
    next := Receive(c.(patience := c.patience - 1)).c;
  }

  /**
   A message that ends the wait for the answer to a call: kind 2 or 3, under the call's serial, and
   from the peer the call went to, from the bus if it is an error, or from nobody at all.
   */
  predicate Replies(m: Message, serial: u32, owner: Text) {
    && m.replySerial == Some(serial) && (m.kind == 2 || m.kind == 3)
    && (m.sender == Some(owner) || (m.kind == 3 && m.sender == Some(BUS)) || m.sender == None)
  }

  /**
   What it comes to: the values of a return, or why they cannot be read; the name of an error, with
   its first value if that is a string; nothing without a sender, or an error without a name.
   */
  predicate ComesTo(m: Message, r: Answer<seq<Value>>) {
    var body := Decode(m.signature, m.body);
    if m.sender == None || (m.kind == 3 && m.errorName == None) then
      r.Err? && r.error.Local? && r.error.why.BadMessage?
    else if m.kind == 2 then
      (body.Ok? ==> r == Ok(body.value)) && (body.Err? ==> r == Err(Local(body.error)))
    else
      && r.Err? && r.error.Remote? && Some(r.error.name) == m.errorName
      && (body.Ok? && |body.value| > 0 && body.value[0].Str? ==> r.error.message == body.value[0].text)
      && (body.Err? || |body.value| == 0 || !body.value[0].Str? ==> r.error.message == [])
  }

  lemma JudgeIs(m: Message, serial: u32, owner: Text)
    ensures Judge(m, serial, owner).Some? <==> Replies(m, serial, owner)
    ensures Judge(m, serial, owner).Some? ==> ComesTo(m, Judge(m, serial, owner).value)
  {
    hide Decode, Utf8;
  }

  /** The first message of a stream that ends a wait, or the number of messages. */
  function FirstReply(wires: seq<seq<byte>>, serial: u32, owner: Text): (k: nat)
    ensures k <= |wires|
  {
    if wires == [] || Replies(MessageOf(wires[0]), serial, owner) then 0
    else 1 + FirstReply(wires[1..], serial, owner)
  }

  lemma {:induction false} FirstReplyIs(wires: seq<seq<byte>>, serial: u32, owner: Text)
    ensures var k := FirstReply(wires, serial, owner);
            && (k < |wires| ==> Replies(MessageOf(wires[k]), serial, owner))
            && forall j :: 0 <= j < k ==> !Replies(MessageOf(wires[j]), serial, owner)
    decreases |wires|
  {
    hide Replies, MessageOf;
    if wires != [] && !Replies(MessageOf(wires[0]), serial, owner) {
      FirstReplyIs(wires[1..], serial, owner);
      forall j | 0 <= j < FirstReply(wires, serial, owner)
        ensures !Replies(MessageOf(wires[j]), serial, owner)
      {
        assert j > 0 ==> wires[j] == wires[1..][j - 1];
      }
    }
  }

  /**
   With patience enough, a wait returns what the first message that ends it comes to, however many
   it has to skip, and leaves what follows it; where there is none it ends at its deadline.
   */
  lemma {:induction false} AwaitFindsTheAnswer(c: Conn, wires: seq<seq<byte>>, serial: u32, owner: Text, dest: Text)
    requires Fed(c, wires) && Ample(c, wires)
    ensures var k := FirstReply(wires, serial, owner);
            var o := Await(c, serial, owner, dest);
            && (k < |wires| ==>
                  ComesTo(MessageOf(wires[k]), o.r) && Fed(o.c, wires[k + 1..]) && Ample(o.c, wires[k + 1..]))
            && (k == |wires| ==> o.r == Err(Local(Timeout)))
    decreases |wires|
  {
    hide Fed, Await, Judge, Forget, Utf8, MessageOf, FirstReply, Receive, Replies, ComesTo;
    if wires == [] {
      RunDry(c);
      NoAnswer(c, serial, owner, dest);
    } else {
      var next := AwaitStep(c, wires, serial, owner, dest);
      FirstReplyLater(wires, serial, owner);
      JudgeIs(MessageOf(wires[0]), serial, owner);
      if !Replies(MessageOf(wires[0]), serial, owner) {
        AwaitFindsTheAnswer(next, wires[1..], serial, owner, dest);
      } else {
        SameFeed(next, wires[1..], Await(c, serial, owner, dest).c);
      }
    }
  }

  lemma FirstReplyLater(wires: seq<seq<byte>>, serial: u32, owner: Text)
    requires wires != []
    ensures FirstReply(wires, serial, owner)
         == if Replies(MessageOf(wires[0]), serial, owner) then 0 else 1 + FirstReply(wires[1..], serial, owner)
  {
    hide Replies, MessageOf;
  }

  lemma NoAnswer(c: Conn, serial: u32, owner: Text, dest: Text)
    requires c.buf == [] && c.input == []
    ensures Await(c, serial, owner, dest).r == Err(Local(Timeout)) && FirstReply([], serial, owner) == 0
  {
    hide Receive, Judge;
    if c.patience > 0 {
      ReceiveNothing(c.(patience := c.patience - 1));
    }
  }

  /**
   A call whose peer is known, or was just looked up or started, is answered by the first message
   of what is left of the stream that may answer it.
   */
  lemma CallIsAnswered(c: Conn, wires: seq<seq<byte>>, q: Request, to: Text)
    requires Refusal(c.fdPassing, q).None?
    requires OwnerOf(c, q.dest).r == Ok(to) && SendCall(OwnerOf(c, q.dest).c, q, to).r.Ok?
    requires Fed(OwnerOf(c, q.dest).c, wires) && Ample(OwnerOf(c, q.dest).c, wires)
    ensures var serial := NextSerial(OwnerOf(c, q.dest).c.serial);
            var k := FirstReply(wires, serial, to);
            && (k < |wires| ==> ComesTo(MessageOf(wires[k]), Call(c, q).r))
            && (k == |wires| ==> Call(c, q).r == Err(Local(Timeout)))
  {
    hide Fed, OwnerOf, Await, Refusal, Encode, EncodeMessage, CallFields, Utf8, ComesTo, MessageOf, FirstReply;
    var from := OwnerOf(c, q.dest).c;
    var call := SendCall(from, q, to);
    SameFeed(from, wires, call.c);
    AwaitFindsTheAnswer(call.c, wires, call.r.value, to, q.dest);
  }

  /** A wait for a reply held to a trusted owner ends the same on both streams. */
  lemma {:induction false} AwaitTwins(
    c1: Conn, w1: seq<seq<byte>>, c2: Conn, w2: seq<seq<byte>>, trusted: set<Text>,
    serial: u32, owner: Text, dest: Text)
    returns (v1: seq<seq<byte>>, v2: seq<seq<byte>>)
    requires Twins(c1, w1, c2, w2, trusted) && BUS in trusted && owner in trusted
    ensures var o1, o2 := Await(c1, serial, owner, dest), Await(c2, serial, owner, dest);
            && o1.r == o2.r && Twins(o1.c, v1, o2.c, v2, trusted)
            && Spent(c1, w1, o1.c, v1) && Spent(c2, w2, o2.c, v2)
    decreases |w1|
  {
    hide Fed, Await, Judge, Forget, Utf8, MessageOf, Agree;
    if w1 == [] {
      AgreeNil(w2, trusted);
      TwinsRunDry(c1, c2, trusted, serial, owner, dest);
      v1, v2 := [], [];
    } else {
      var m := MessageOf(w1[0]);
      AgreeHead(w1, w2, trusted);
      var n1 := AwaitStep(c1, w1, serial, owner, dest);
      if !IsFrom(m, trusted) {
        StrangerSkipped(m, serial, owner, trusted);
        v1, v2 := AwaitTwins(n1, w1[1..], c2, w2, trusted, serial, owner, dest);
      } else {
        var n2 := AwaitStep(c2, w2, serial, owner, dest);
        if Judge(m, serial, owner).None? {
          v1, v2 := AwaitTwins(n1, w1[1..], n2, w2[1..], trusted, serial, owner, dest);
        } else {
          v1, v2 := w1[1..], w2[1..];
          SameFeed(n1, v1, Await(c1, serial, owner, dest).c);
          SameFeed(n2, v2, Await(c2, serial, owner, dest).c);
        }
      }
    }
  }

  /** The clock and the stream are only used up, and the clock no faster than the stream. */
  predicate Spent(c: Conn, w: seq<seq<byte>>, o: Conn, v: seq<seq<byte>>) {
    |o.input| + |v| <= |c.input| + |w|
  }

  lemma StrangerSkipped(m: Message, serial: u32, owner: Text, trusted: set<Text>)
    requires BUS in trusted && owner in trusted && m.sender.Some? && !IsFrom(m, trusted)
    ensures Judge(m, serial, owner).None?
  {
    hide Decode;
  }

  /** Being fed depends on the buffer, the descriptors and the input alone. */
  lemma SameFeed(c: Conn, wires: seq<seq<byte>>, o: Conn)
    requires Fed(c, wires) && o.buf == c.buf && o.fdsSeen == c.fdsSeen && o.input == c.input
    ensures Fed(o, wires)
  {
    hide Whole, Delivered, NoFdsWithin, FdsAt, Concat;
    assert StreamOf(o) == StreamOf(c);
  }

  lemma FedSooner(c: Conn, wires: seq<seq<byte>>)
    requires Fed(c, wires) && c.patience > 0
    ensures Fed(c.(patience := c.patience - 1), wires)
  {
    hide Fed;
    SameFeed(c, wires, c.(patience := c.patience - 1));
  }

  lemma TwinsRunDry(c1: Conn, c2: Conn, trusted: set<Text>, serial: u32, owner: Text, dest: Text)
    requires Twins(c1, [], c2, [], trusted)
    ensures var o1, o2 := Await(c1, serial, owner, dest), Await(c2, serial, owner, dest);
            && o1.r == o2.r && Twins(o1.c, [], o2.c, [], trusted)
            && |o1.c.input| <= |c1.input| && |o2.c.input| <= |c2.input|
  {
    hide Fed, Await, Agree;
    RunDry(c1);
    RunDry(c2);
    AwaitDry(c1, serial, owner, dest);
    AwaitDry(c2, serial, owner, dest);
    SameFeed(c1, [], Await(c1, serial, owner, dest).c);
    SameFeed(c2, [], Await(c2, serial, owner, dest).c);
  }

  lemma AwaitDry(c: Conn, serial: u32, owner: Text, dest: Text)
    requires c.buf == [] && c.input == []
    ensures var o := Await(c, serial, owner, dest);
            o.r == Err(Local(Timeout)) && o.c == c.(patience := o.c.patience)
  {
    hide Receive, Judge;
    if c.patience > 0 {
      ReceiveNothing(c.(patience := c.patience - 1));
    }
  }

  // ----- a whole call, and whole runs -----

  lemma SendTwins(
    c1: Conn, w1: seq<seq<byte>>, c2: Conn, w2: seq<seq<byte>>, trusted: set<Text>, q: Request, owner: Text)
    requires Twins(c1, w1, c2, w2, trusted)
    ensures var o1, o2 := SendCall(c1, q, owner), SendCall(c2, q, owner);
            && o1.r == o2.r && Twins(o1.c, w1, o2.c, w2, trusted)
            && Spent(c1, w1, o1.c, w1) && Spent(c2, w2, o2.c, w2)
  {
    hide Fed, Agree, Encode, EncodeMessage, CallFields, Utf8;
    SameFeed(c1, w1, SendCall(c1, q, owner).c);
    SameFeed(c2, w2, SendCall(c2, q, owner).c);
  }

  lemma {:induction false} CallTwins(
    c1: Conn, w1: seq<seq<byte>>, c2: Conn, w2: seq<seq<byte>>, trusted: set<Text>, q: Request)
    returns (v1: seq<seq<byte>>, v2: seq<seq<byte>>)
    requires Twins(c1, w1, c2, w2, trusted) && BUS in trusted
    requires OwnerOf(c1, q.dest).r.Ok? ==> OwnerOf(c1, q.dest).r.value in trusted
    ensures var o1, o2 := Call(c1, q), Call(c2, q);
            && o1.r == o2.r && Twins(o1.c, v1, o2.c, v2, trusted)
            && Spent(c1, w1, o1.c, v1) && Spent(c2, w2, o2.c, v2)
    decreases if OwnsItself(q.dest) then 0 else 1, 2
  {
    hide OwnerOf, SendCall, Await, Refusal, Twins, OwnsItself, Utf8;
    TwinsAreSame(c1, w1, c2, w2, trusted);
    v1, v2 := w1, w2;
    if Refusal(c1.fdPassing, q).None? {
      v1, v2 := OwnerTwins(c1, w1, c2, w2, trusted, q.dest);
      var owner1, owner2 := OwnerOf(c1, q.dest), OwnerOf(c2, q.dest);
      if owner1.r.Ok? {
        var to := owner1.r.value;
        SendTwins(owner1.c, v1, owner2.c, v2, trusted, q, to);
        var call1, call2 := SendCall(owner1.c, q, to), SendCall(owner2.c, q, to);
        if call1.r.Ok? {
          v1, v2 := AwaitTwins(call1.c, v1, call2.c, v2, trusted, call1.r.value, to, q.dest);
        }
      }
    }
  }

  lemma TwinsAreSame(c1: Conn, w1: seq<seq<byte>>, c2: Conn, w2: seq<seq<byte>>, trusted: set<Text>)
    requires Twins(c1, w1, c2, w2, trusted)
    ensures SameClient(c1, c2)
  {
  }

  lemma {:induction false} OwnerTwins(
    c1: Conn, w1: seq<seq<byte>>, c2: Conn, w2: seq<seq<byte>>, trusted: set<Text>, dest: Text)
    returns (v1: seq<seq<byte>>, v2: seq<seq<byte>>)
    requires Twins(c1, w1, c2, w2, trusted) && BUS in trusted
    ensures var o1, o2 := OwnerOf(c1, dest), OwnerOf(c2, dest);
            && o1.r == o2.r && Twins(o1.c, v1, o2.c, v2, trusted)
            && Spent(c1, w1, o1.c, v1) && Spent(c2, w2, o2.c, v2)
    decreases if OwnsItself(dest) then 0 else 1, 1
  {
    hide AskOrStart, OwnsItself, Utf8, Fed, Agree;
    v1, v2 := w1, w2;
    if !OwnsItself(dest) && FindOwner(c1.owners, dest).None? {
      v1, v2 := AskOrStartTwins(c1, w1, c2, w2, trusted, dest);
      SameFeed(AskOrStart(c1, dest).c, v1, OwnerOf(c1, dest).c);
      SameFeed(AskOrStart(c2, dest).c, v2, OwnerOf(c2, dest).c);
    }
  }

  lemma {:induction false} AskOrStartTwins(
    c1: Conn, w1: seq<seq<byte>>, c2: Conn, w2: seq<seq<byte>>, trusted: set<Text>, dest: Text)
    returns (v1: seq<seq<byte>>, v2: seq<seq<byte>>)
    requires Twins(c1, w1, c2, w2, trusted) && BUS in trusted && !OwnsItself(dest)
    ensures var o1, o2 := AskOrStart(c1, dest), AskOrStart(c2, dest);
            && o1.r == o2.r && Twins(o1.c, v1, o2.c, v2, trusted)
            && Spent(c1, w1, o1.c, v1) && Spent(c2, w2, o2.c, v2)
    decreases 1, 0
  {
    hide Call, AskOwner, Twins, Utf8;
    v1, v2 := AskTwins(c1, w1, c2, w2, trusted, dest);
    var first1, first2 := AskOwner(c1, dest), AskOwner(c2, dest);
    if first1.r.Err? && first1.r.error.Remote? && first1.r.error.name == NO_OWNER {
      BusOwnsItself(first1.c);
      v1, v2 := CallTwins(first1.c, v1, first2.c, v2, trusted, Starting(dest));
      var started1, started2 := Call(first1.c, Starting(dest)), Call(first2.c, Starting(dest));
      if started1.r.Ok? {
        v1, v2 := AskTwins(started1.c, v1, started2.c, v2, trusted, dest);
      }
    }
  }

  lemma BusOwnsItself(c: Conn)
    ensures OwnerOf(c, BUS) == Out(Ok(BUS), c)
  {
    hide Utf8, AskOrStart;
  }

  lemma {:induction false} AskTwins(
    c1: Conn, w1: seq<seq<byte>>, c2: Conn, w2: seq<seq<byte>>, trusted: set<Text>, dest: Text)
    returns (v1: seq<seq<byte>>, v2: seq<seq<byte>>)
    requires Twins(c1, w1, c2, w2, trusted) && BUS in trusted
    ensures var o1, o2 := AskOwner(c1, dest), AskOwner(c2, dest);
            && o1.r == o2.r && Twins(o1.c, v1, o2.c, v2, trusted)
            && Spent(c1, w1, o1.c, v1) && Spent(c2, w2, o2.c, v2)
    decreases 0, 3
  {
    hide Call, Twins, Utf8;
    BusOwnsItself(c1);
    v1, v2 := CallTwins(c1, w1, c2, w2, trusted, Asking(dest));
  }

  /** Calls one after another, each with its own deadline. */
  function Run(c: Conn, calls: seq<Request>, patience: nat): (o: Out<seq<Answer<seq<Value>>>>)
    decreases |calls|
  {
    if calls == [] then Out([], c)
    else
      var first := Call(c.(patience := patience), calls[0]);
      var rest := Run(first.c, calls[1..], patience);
      Out([first.r] + rest.r, rest.c)
  }

  /** Every owner a run resolves is one of `trusted`. */
  predicate Resolves(c: Conn, calls: seq<Request>, patience: nat, trusted: set<Text>)
    decreases |calls|
  {
    calls == [] ||
    (var from := c.(patience := patience);
     var owner := OwnerOf(from, calls[0].dest);
     && (owner.r.Ok? ==> owner.r.value in trusted)
     && Resolves(Call(from, calls[0]).c, calls[1..], patience, trusted))
  }

  /** Every run from a new connection keeps the invariant: its cache is vouched for, its serials are fresh. */
  lemma {:induction false} RunKeepsInv(c: Conn, calls: seq<Request>, patience: nat)
    requires Inv(c)
    ensures Inv(Run(c, calls, patience).c)
    decreases |calls|
  {
    hide Call, Utf8, Vouched, SerialsOk, DistinctNames;
    if calls != [] {
      var from := c.(patience := patience);
      InvLater(c, from);
      CallKeeps(from, calls[0]);
      RunKeepsInv(Call(from, calls[0]).c, calls[1..], patience);
    }
  }

  /**
   Strangers do not matter: over a whole run of calls, deleting every message from anyone
   but the bus and the owners it named, and cutting what is left into reads in any other
   way, leaves every answer as it was.
   */
  lemma {:induction false} StrangersDoNotMatter(
    c1: Conn, w1: seq<seq<byte>>, c2: Conn, w2: seq<seq<byte>>, trusted: set<Text>,
    calls: seq<Request>, patience: nat)
    requires Fed(c1, w1) && Fed(c2, w2) && SameClient(c1, c2) && Agree(w1, w2, trusted)
    requires patience >= |c1.input| + |w1| && patience >= |c2.input| + |w2|
    requires BUS in trusted && Resolves(c1, calls, patience, trusted)
    ensures Run(c1, calls, patience).r == Run(c2, calls, patience).r
    ensures SameClient(Run(c1, calls, patience).c, Run(c2, calls, patience).c)
    decreases |calls|
  {
    hide Call, OwnerOf, Fed, Agree, Utf8;
    if calls != [] {
      var from1, from2 := c1.(patience := patience), c2.(patience := patience);
      SameFeed(c1, w1, from1);
      SameFeed(c2, w2, from2);
      var v1, v2 := CallTwins(from1, w1, from2, w2, trusted, calls[0]);
      var next1, next2 := Call(from1, calls[0]).c, Call(from2, calls[0]).c;
      StrangersDoNotMatter(next1, v1, next2, v2, trusted, calls[1..], patience);
    }
  }
}
