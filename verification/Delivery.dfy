/** What one side marshals is what the other side of a stream receives. */
module Delivery {
  import opened Results
  import opened Bytes
  import opened Wire
  import opened RoundTrip
  import opened Messages
  import opened MessageRoundTrip
  import opened Session
  import opened Stream

  /** The arguments of `encode_message`. */
  datatype Outgoing = Outgoing(kind: byte, flags: byte, serial: u32, fields: seq<Field>, body: seq<byte>)

  /** Encodable, within the limits of a reader, and fit to be read. */
  predicate Sendable(m: Outgoing) {
    var r := EncodeMessage(m.kind, m.flags, m.serial, m.fields, m.body);
    && r.Ok? && |r.value| <= MAX_INCOMING
    && CostAll(HeaderValues(m.kind, m.flags, m.serial, m.fields, |m.body|)) <= MAX_VALUES
    && Readable(m.fields, m.body)
  }

  function WireOf(m: Outgoing): seq<byte> {
    match EncodeMessage(m.kind, m.flags, m.serial, m.fields, m.body)
    case Ok(bytes) => bytes
    case Err(_) => []
  }

  /** What a receiver is to make of it. */
  function Incoming(m: Outgoing): Message
    requires AllWellTyped(m.fields)
  {
    var known := Override(NO_FIELDS, m.fields);
    Message(m.kind, known.replySerial, known.errorName, known.sender, known.signature, known.unixFds, m.body)
  }

  lemma EncodedIsWhole(m: Outgoing)
    requires Sendable(m)
    ensures AllWellTyped(m.fields)
    ensures Whole(WireOf(m)) && MessageOf(WireOf(m)) == Incoming(m)
  {
    hide EncodeMessage, DecodeMessage, Frame, Override, HeaderValues, CostAll, AllWellTyped, Distinct, Lookup;
    FrameOfEncoded(m.kind, m.flags, m.serial, m.fields, m.body);
    DecodeOfEncodedMessage(m.kind, m.flags, m.serial, m.fields, m.body);
    var w := WireOf(m);
    assert DecodeMessage(w) == Ok(Incoming(m));
    assert |m.body| <= |w| <= MAX_INCOMING;
    assert Frame(w) == Ok((|w| - |m.body|, |m.body|));
  }

  function Wires(ms: seq<Outgoing>): (r: seq<seq<byte>>)
    ensures |r| == |ms|
    ensures forall i :: 0 <= i < |ms| ==> r[i] == WireOf(ms[i])
  {
    seq(|ms|, i requires 0 <= i < |ms| => WireOf(ms[i]))
  }

  lemma AllEncodedAreWhole(ms: seq<Outgoing>)
    requires forall i :: 0 <= i < |ms| ==> Sendable(ms[i])
    ensures AllWhole(Wires(ms))
    ensures forall i :: 0 <= i < |ms| ==> AllWellTyped(ms[i].fields) && MessagesOf(Wires(ms))[i] == Incoming(ms[i])
  {
    hide Sendable, Whole, WireOf, MessageOf, Incoming, AllWellTyped;
    forall i | 0 <= i < |ms|
      ensures AllWellTyped(ms[i].fields) && Whole(Wires(ms)[i]) && MessagesOf(Wires(ms))[i] == Incoming(ms[i])
    {
      EncodedIsWhole(ms[i]);
    }
  }

  /**
   End to end: messages marshalled one after another and cut into reads in any way are received
   as those messages, field by field and in order, and the last byte is used up.
   */
  lemma SentIsReceived(c: Conn, ms: seq<Outgoing>)
    requires forall i :: 0 <= i < |ms| ==> Sendable(ms[i])
    requires Fed(c, Wires(ms))
    requires c.patience >= |c.input|
    ensures var got := ReceiveMany(c, |ms|);
            && |got.0| == |ms|
            && (forall i :: 0 <= i < |ms| ==> AllWellTyped(ms[i].fields) && got.0[i] == Incoming(ms[i]))
            && Fed(got.1, [])
  {
    hide Sendable, WireOf, MessageOf, Incoming, ReceiveMany, Fed, Whole, AllWellTyped;
    AllEncodedAreWhole(ms);
    ChunksDoNotMatter(c, Wires(ms));
  }
}
