/**
 The bus client: one method call at a time over a socket that hands over chunks, with
 well-known names resolved to their owners first. Functions say what each operation makes
 of a connection; the class runs them on its own fields.
 */
module Session {
  import opened Results
  import opened Bytes
  import opened Utf8Text
  import opened Signatures
  import opened Wire
  import opened Messages
  import Codec

  const MAX_CALL_FDS: nat := 253
  const MAX_AUTH_LINE: nat := 4096
  const MAX_SERIAL: nat := 0xFFFF_FFFF

  function Chars(s: string): (bs: Text)
    requires forall i :: 0 <= i < |s| ==> s[i] < 128 as char
  {
    var bs: seq<byte> := seq(|s|, i requires 0 <= i < |s| => s[i] as int);
    AsciiIsUtf8(bs);
    bs
  }

  const BUS: Text := Chars("org.freedesktop.DBus")
  const BUS_PATH: Text := Chars("/org/freedesktop/DBus")
  const NO_OWNER: Text := Chars("org.freedesktop.DBus.Error.NameHasNoOwner")
  const SERVICE_UNKNOWN: Text := Chars("org.freedesktop.DBus.Error.ServiceUnknown")
  const GET_NAME_OWNER: Text := Chars("GetNameOwner")
  const START_SERVICE: Text := Chars("StartServiceByName")
  const HELLO: Text := Chars("Hello")
  const COLON: byte := 58  // ':'

  predicate IsUnique(name: seq<byte>) {
    name != [] && name[0] == COLON
  }

  // ----- a connection -----

  /** What the socket hands over next: bytes with descriptors (no bytes: closed), or a failure. */
  datatype Event = Chunk(bytes: seq<byte>, fds: nat) | Broken

  datatype Owner = Owner(name: Text, unique: Text)

  datatype Request = Request(
    dest: Text, path: Text, iface: Text, member: Text, sig: Text, body: seq<Value>, fds: nat)

  /**
   One call written to the bus, addressed to `to`. `draw` counts the serials drawn up to its
   own, `after` the messages heard before it went out.
   */
  datatype Sent = Sent(draw: nat, serial: u32, to: Text, q: Request, bytes: seq<byte>, after: nat)

  /**
   `patience` is how many more times the clock is read before the deadline; `input` is
   everything the socket will still hand over; `sent` and `heard` are every message that
   went out and every one that was received.
   */
  datatype Conn = Conn(
    owners: seq<Owner>,
    serial: u32,
    drawn: nat,
    fdPassing: bool,
    fdsSeen: nat,
    buf: seq<byte>,
    input: seq<Event>,
    patience: nat,
    sent: seq<Sent>,
    heard: seq<Message>)

  /** A failure of the connection itself, after which it is dropped, or the far side's own refusal. */
  datatype CallError = Local(why: WireError) | Remote(name: Text, message: Text)

  type Answer<+T> = Result<T, CallError>

  function Lift<T>(r: Wired<T>): Answer<T> {
    match r
    case Ok(v) => Ok(v)
    case Err(why) => Err(Local(why))
  }

  /** A result and the connection it leaves. */
  datatype Out<+R> = Out(r: R, c: Conn)

  // ----- reading -----

  /** `fill`: whatever the socket has. Where nothing comes, the wait ends at the deadline. */
  function Fill(c: Conn): (o: Out<Wired<()>>)
    ensures o.c == c.(buf := o.c.buf, fdsSeen := o.c.fdsSeen, input := o.c.input)
    ensures o.r.Ok? ==> |o.c.input| < |c.input|
  {
    if c.input == [] then Out(Err(Timeout), c)
    else
      var rest := c.(input := c.input[1..]);
      match c.input[0]
      case Broken => Out(Err(Io), rest)
      case Chunk(bytes, fds) =>
        var seen := rest.(fdsSeen := c.fdsSeen + fds);
        if bytes == [] then Out(Err(Closed), seen)
        else Out(Ok(()), seen.(buf := c.buf + bytes))
  }

  /** The message at the front of the buffer, taken off it. */
  function TakeMessage(c: Conn, total: nat): (o: Out<Wired<Message>>)
    requires total <= |c.buf|
    ensures o.c == c.(buf := c.buf[total..], fdsSeen := o.c.fdsSeen, heard := o.c.heard)
    ensures o.r.Ok? ==> DecodeMessage(c.buf[..total]) == o.r && o.c.fdsSeen == 0
    ensures o.c.heard == if o.r.Ok? then c.heard + [o.r.value] else c.heard
  {
    var after := c.(buf := c.buf[total..]);
    match DecodeMessage(c.buf[..total])
    case Err(why) => Out(Err(why), after)
    case Ok(message) =>
      if c.fdsSeen != message.unixFds
      then Out(Err(BadMessage("a message with fewer or more descriptors than it declares")), after.(fdsSeen := 0))
      else Out(Ok(message), after.(fdsSeen := 0, heard := c.heard + [message]))
  }

  /** `receive`: the next whole message. */
  function Receive(c: Conn): (o: Out<Wired<Message>>)
    ensures o.c == c.(buf := o.c.buf, fdsSeen := o.c.fdsSeen, input := o.c.input, patience := o.c.patience,
                      heard := o.c.heard)
    ensures o.c.patience <= c.patience
    ensures o.c.heard == if o.r.Ok? then c.heard + [o.r.value] else c.heard
    decreases |c.input|
  {
    var framed: Wired<(nat, nat)> := if |c.buf| >= FIXED_HEADER then Frame(c.buf) else Err(Truncated);
    if |c.buf| >= FIXED_HEADER && framed.Err? then Out(Err(framed.error), c)
    else if |c.buf| >= FIXED_HEADER && |c.buf| >= framed.value.0 + framed.value.1 then
      TakeMessage(c, framed.value.0 + framed.value.1)
    else if c.patience == 0 then Out(Err(Timeout), c)
    else
      var filled := Fill(c.(patience := c.patience - 1));
      if filled.r.Err? then Out(Err(filled.r.error), filled.c) else Receive(filled.c)
  }

  /** Whether a whole message, or a refused one, stands at the front of the buffer. */
  predicate Framed(c: Conn) {
    |c.buf| >= FIXED_HEADER && (Frame(c.buf).Err? || |c.buf| >= Frame(c.buf).value.0 + Frame(c.buf).value.1)
  }

  lemma ReceiveStep(c: Conn)
    ensures Framed(c) && Frame(c.buf).Err? ==> Receive(c) == Out(Err(Frame(c.buf).error), c)
    ensures Framed(c) && Frame(c.buf).Ok? ==>
              Receive(c) == TakeMessage(c, Frame(c.buf).value.0 + Frame(c.buf).value.1)
    ensures !Framed(c) && c.patience == 0 ==> Receive(c) == Out(Err(Timeout), c)
    ensures !Framed(c) && c.patience > 0 ==>
              var filled := Fill(c.(patience := c.patience - 1));
              Receive(c) == if filled.r.Err? then Out(Err(filled.r.error), filled.c) else Receive(filled.c)
  {
    hide TakeMessage, Fill, Frame;
  }

  // ----- judging a reply -----

  /** "If the first argument exists and is a string, it is an error message." */
  function ErrorText(m: Message): Text {
    match Decode(m.signature, m.body)
    case Ok(vs) => if vs != [] && vs[0].Str? then vs[0].text else []
    case Err(_) => []
  }

  function ReplyOf(m: Message): Answer<seq<Value>> {
    if m.kind == METHOD_RETURN then Lift(Decode(m.signature, m.body))
    else if m.errorName.None? then Err(Local(BadMessage("an error reply with no error name")))
    else Err(Remote(m.errorName.value, ErrorText(m)))
  }

  /** What a message answers to the call `serial` held to `owner`; `None` where it is skipped. */
  function Judge(m: Message, serial: u32, owner: Text): Option<Answer<seq<Value>>> {
    if m.replySerial != Some(serial) then None
    else if m.kind != METHOD_RETURN && m.kind != ERROR then None
    else if m.sender.None? then Some(Err(Local(BadMessage("a reply with no sender"))))
    else if m.sender.value == owner || (m.sender.value == BUS && m.kind == ERROR) then Some(ReplyOf(m))
    else None
  }

  /** The far side says nobody is there. */
  predicate SaysGone(r: Answer<seq<Value>>) {
    r.Err? && r.error.Remote? && (r.error.name == NO_OWNER || r.error.name == SERVICE_UNKNOWN)
  }

  function Forget(owners: seq<Owner>, dest: Text): (kept: seq<Owner>)
    ensures forall o :: o in kept <==> o in owners && o.name != dest
  {
    if owners == [] then []
    else if owners[0].name == dest then Forget(owners[1..], dest)
    else [owners[0]] + Forget(owners[1..], dest)
  }

  lemma ForgetFrom(owners: seq<Owner>, i: nat, dest: Text)
    requires i <= |owners|
    ensures i == |owners| ==> Forget(owners[i..], dest) == []
    ensures i < |owners| ==>
              Forget(owners[i..], dest)
              == (if owners[i].name == dest then [] else [owners[i]]) + Forget(owners[i + 1..], dest)
  {
    if i < |owners| {
      assert owners[i..][1..] == owners[i + 1..];
    }
  }

  function FindOwner(owners: seq<Owner>, dest: Text): (o: Option<Text>)
    ensures o.Some? ==> Owner(dest, o.value) in owners
    ensures o.None? ==> forall x :: x in owners ==> x.name != dest
  {
    if owners == [] then None
    else if owners[0].name == dest then Some(owners[0].unique)
    else FindOwner(owners[1..], dest)
  }

  /** The loop of a call, from the send on: messages are read until one answers. */
  function Await(c: Conn, serial: u32, owner: Text, dest: Text): (o: Out<Answer<seq<Value>>>)
    decreases c.patience
  {
    if c.patience == 0 then Out(Err(Local(Timeout)), c)
    else
      var got := Receive(c.(patience := c.patience - 1));
      if got.r.Err? then Out(Err(Local(got.r.error)), got.c)
      else
        match Judge(got.r.value, serial, owner)
        case None => Await(got.c, serial, owner, dest)
        case Some(r) =>
          Out(r, if SaysGone(r) then got.c.(owners := Forget(got.c.owners, dest)) else got.c)
  }

  // ----- calling -----

  /** The first descriptor index in `v` that was not given to the call. */
  function BadFd(v: Value, count: nat): Option<nat>
    decreases v
  {
    match v
    case Fd(index) => if index >= count then Some(index) else None
    case Array(items) => BadFdIn(items, count)
    case Struct(fields) => BadFdIn(fields, count)
    case Dict(entries) => BadFdInEntries(entries, count)
    case Variant(inner) => BadFd(inner, count)
    case _ => None
  }

  function BadFdIn(vs: seq<Value>, count: nat): Option<nat>
    decreases vs
  {
    if vs == [] then None
    else if BadFd(vs[0], count).Some? then BadFd(vs[0], count)
    else BadFdIn(vs[1..], count)
  }

  function BadFdInEntries(entries: seq<Entry>, count: nat): Option<nat>
    decreases entries
  {
    if entries == [] then None
    else if BadFd(entries[0].value, count).Some? then BadFd(entries[0].value, count)
    else BadFdInEntries(entries[1..], count)
  }

  /** What refuses a call before anything is sent. */
  function Refusal(fdPassing: bool, q: Request): Option<WireError> {
    if q.dest == [] then Some(NoDestination)
    else if q.fds > 0 && !fdPassing then Some(NoFdPassing)
    else if q.fds > MAX_CALL_FDS then Some(TooManyFds(q.fds))
    else if BadFdIn(q.body, q.fds).Some? then Some(FdIndex(BadFdIn(q.body, q.fds).value))
    else None
  }

  function CallFields(q: Request, owner: Text): seq<Field> {
    var count: u32 := if q.fds < 0x1_0000_0000 then q.fds else 0;
    [ Field(FIELD_PATH, Value.ObjectPath(q.path)), Field(FIELD_DESTINATION, Value.Str(owner)) ]
    + (if q.iface != [] then [Field(FIELD_INTERFACE, Value.Str(q.iface))] else [])
    + [Field(FIELD_MEMBER, Value.Str(q.member))]
    + (if q.sig != [] then [Field(FIELD_SIGNATURE, Value.Signature(q.sig))] else [])
    + (if count > 0 then [Field(FIELD_UNIX_FDS, Value.Uint32(count))] else [])
  }

  /** `wrapping_add(1).max(1)` */
  function NextSerial(serial: u32): (next: u32)
    ensures next != 0
  {
    if serial == MAX_SERIAL then 1 else serial + 1
  }

  /** The call marshalled, given a serial and sent to `owner`. */
  function SendCall(c: Conn, q: Request, owner: Text): (o: Out<Wired<u32>>)
    ensures o.c == c.(serial := o.c.serial, drawn := o.c.drawn, sent := o.c.sent)
  {
    match Encode(q.sig, q.body)
    case Err(why) => Out(Err(why), c)
    case Ok(body) =>
      var serial := NextSerial(c.serial);
      var drawn := c.(serial := serial, drawn := c.drawn + 1);
      match EncodeMessage(METHOD_CALL, 0, serial, CallFields(q, owner), body)
      case Err(why) => Out(Err(why), drawn)
      case Ok(message) =>
        Out(Ok(serial), drawn.(sent := c.sent + [Sent(drawn.drawn, serial, owner, q, message, |c.heard|)]))
  }

  /** Names whose owner needs no asking: the bus, and unique names. */
  predicate OwnsItself(dest: Text) {
    dest == BUS || IsUnique(dest)
  }

  function Asking(dest: Text): Request {
    Request(BUS, BUS_PATH, BUS, GET_NAME_OWNER, Chars("s"), [Value.Str(dest)], 0)
  }

  function Starting(dest: Text): Request {
    Request(BUS, BUS_PATH, BUS, START_SERVICE, Chars("su"), [Value.Str(dest), Value.Uint32(0)], 0)
  }

  /** `call_by` */
  function Call(c: Conn, q: Request): (o: Out<Answer<seq<Value>>>)
    decreases if OwnsItself(q.dest) then 0 else 1, 2
  {
    match Refusal(c.fdPassing, q)
    case Some(why) => Out(Err(Local(why)), c)
    case None =>
      var owner := OwnerOf(c, q.dest);
      if owner.r.Err? then Out(Err(owner.r.error), owner.c)
      else
        var call := SendCall(owner.c, q, owner.r.value);
        if call.r.Err? then Out(Err(Local(call.r.error)), call.c)
        else Await(call.c, call.r.value, owner.r.value, q.dest)
  }

  /** `owner_of`: the unique name that may answer a call to `dest`. */
  function OwnerOf(c: Conn, dest: Text): (o: Out<Answer<Text>>)
    decreases if OwnsItself(dest) then 0 else 1, 1
  {
    if OwnsItself(dest) then Out(Ok(dest), c)
    else if FindOwner(c.owners, dest).Some? then Out(Ok(FindOwner(c.owners, dest).value), c)
    else
      var asked := AskOrStart(c, dest);
      if asked.r.Err? then asked
      else Out(asked.r, asked.c.(owners := asked.c.owners + [Owner(dest, asked.r.value)]))
  }

  /** The bus is asked; a name with no owner is started and asked for once more. */
  function AskOrStart(c: Conn, dest: Text): (o: Out<Answer<Text>>)
    requires !OwnsItself(dest)
    decreases 1, 0
  {
    var first := AskOwner(c, dest);
    if first.r.Err? && first.r.error.Remote? && first.r.error.name == NO_OWNER then
      var started := Call(first.c, Starting(dest));
      if started.r.Err? then Out(Err(started.r.error), started.c)
      else AskOwner(started.c, dest)
    else first
  }

  /** `ask_owner`: `GetNameOwner`. */
  function AskOwner(c: Conn, dest: Text): (o: Out<Answer<Text>>)
    ensures o.r.Ok? ==> IsUnique(o.r.value)
    decreases 0, 3
  {
    var reply := Call(c, Asking(dest));
    if reply.r.Err? then Out(Err(reply.r.error), reply.c)
    else if !(|reply.r.value| == 1 && reply.r.value[0].Str?) then
      Out(Err(Local(BadMessage("a GetNameOwner reply that is not one name"))), reply.c)
    else if !IsUnique(reply.r.value[0].text) then
      Out(Err(Local(BadMessage("a name owner that is not unique"))), reply.c)
    else Out(Ok(reply.r.value[0].text), reply.c)
  }

  const GREETING: Request := Request(BUS, BUS_PATH, BUS, HELLO, [], [], 0)

  /** `hello`: the unique name the bus gives the connection. */
  function Hello(c: Conn): (o: Out<Answer<Text>>)
    ensures o.r.Ok? ==> IsUnique(o.r.value)
  {
    var reply := Call(c, GREETING);
    if reply.r.Err? then Out(Err(reply.r.error), reply.c)
    else if !(|reply.r.value| == 1 && reply.r.value[0].Str?) then
      Out(Err(Local(BadMessage("a Hello reply that is not one name"))), reply.c)
    else if !IsUnique(reply.r.value[0].text) then
      Out(Err(Local(BadMessage("a Hello reply that is not a unique name"))), reply.c)
    else Out(Ok(reply.r.value[0].text), reply.c)
  }

  // ----- the authentication lines -----

  const CR: byte := 13
  const LF: byte := 10

  /** Where the first `\r\n` at or after `from` begins. */
  function LineEnd(bs: seq<byte>, from: nat): (r: Option<nat>)
    ensures r.Some? ==> from <= r.value < |bs| - 1 && bs[r.value] == CR && bs[r.value + 1] == LF
    ensures forall k :: from <= k < |bs| - 1 && (r.Some? ==> k < r.value) ==> !(bs[k] == CR && bs[k + 1] == LF)
    decreases |bs| - from
  {
    if from + 1 >= |bs| then None
    else if bs[from] == CR && bs[from + 1] == LF then Some(from)
    else LineEnd(bs, from + 1)
  }

  /** `line`: one line without its ending, taken off the buffer. */
  function Line(c: Conn): (o: Out<Wired<seq<byte>>>)
    ensures o.c == c.(buf := o.c.buf, fdsSeen := o.c.fdsSeen, input := o.c.input)
    decreases |c.input|
  {
    match LineEnd(c.buf, 0)
    case Some(end) =>
      var line := c.buf[..end];
      Out(if Ascii(line) then Ok(line) else Err(Auth(line)), c.(buf := c.buf[end + 2..]))
    case None =>
      if |c.buf| > MAX_AUTH_LINE then Out(Err(Auth([])), c)
      else
        var filled := Fill(c);
        if filled.r.Err? then Out(Err(filled.r.error), filled.c) else Line(filled.c)
  }

  const REJECTED: Text := Chars("REJECTED")
  const ACCEPTED: Text := Chars("OK ")
  const AGREED: Text := Chars("AGREE_UNIX_FD")
  const REFUSED: Text := Chars("ERROR")

  /** White space among the ASCII characters, as `char::is_whitespace` has it. */
  predicate IsAsciiSpace(b: byte) {
    9 <= b <= 13 || b == 32
  }

  function TrimFront(bs: seq<byte>): seq<byte> {
    if bs != [] && IsAsciiSpace(bs[0]) then TrimFront(bs[1..]) else bs
  }

  function TrimBack(bs: seq<byte>): seq<byte> {
    if bs != [] && IsAsciiSpace(bs[|bs| - 1]) then TrimBack(bs[..|bs| - 1]) else bs
  }

  /** A connection as it is made, before a byte went either way. */
  function NewConn(input: seq<Event>, patience: nat): Conn {
    Conn([], 0, 0, false, 0, [], input, patience, [], [])
  }

  /** `authenticate`: what the bus's two lines make of the connection. */
  function Authenticate(c: Conn): (o: Out<Wired<()>>)
    ensures o.c == c.(fdPassing := o.c.fdPassing, buf := o.c.buf, fdsSeen := o.c.fdsSeen, input := o.c.input)
  {
    var first := Line(c);
    if first.r.Err? then Out(Err(first.r.error), first.c)
    else if REJECTED <= first.r.value then
      Out(Err(AuthRejected(TrimBack(TrimFront(first.r.value[|REJECTED|..])))), first.c)
    else if !(ACCEPTED <= first.r.value) then Out(Err(Auth(first.r.value)), first.c)
    else
      var second := Line(first.c);
      if second.r.Err? then Out(Err(second.r.error), second.c)
      else if second.r.value == AGREED then Out(Ok(()), second.c.(fdPassing := true))
      else if !(REFUSED <= second.r.value) then Out(Err(Auth(second.r.value)), second.c)
      else Out(Ok(()), second.c)
  }

  /** `connect`, from the connected socket on: the lines, then the name the bus gives. */
  function Open(c: Conn): (o: Out<Answer<Text>>) {
    var lines := Authenticate(c);
    if lines.r.Err? then Out(Err(Local(lines.r.error)), lines.c) else Hello(lines.c)
  }

  // ----- the client as it runs -----

  class Client {
    var owners: seq<Owner>
    var serial: u32
    var fdPassing: bool
    var fdsSeen: nat
    var buf: seq<byte>
    /** The far end of the socket, the clock and what went out: not fields of the program's own. */
    var input: seq<Event>
    var patience: nat
    ghost var drawn: nat
    ghost var sent: seq<Sent>
    ghost var heard: seq<Message>

    ghost function View(): Conn
      reads this
    {
      Conn(owners, serial, drawn, fdPassing, fdsSeen, buf, input, patience, sent, heard)
    }

    constructor (input: seq<Event>, patience: nat)
      ensures View() == NewConn(input, patience)
    {
      owners, serial, fdPassing, fdsSeen, buf := [], 0, false, 0, [];
      this.input, this.patience := input, patience;
      drawn, sent, heard := 0, [], [];
    }

    method FillBuffer() returns (r: Wired<()>)
      modifies this
      ensures Out(r, View()) == Fill(old(View()))
    {
      if input == [] {
        return Err(Timeout);
      }
      var event := input[0];
      input := input[1..];
      match event
      case Broken =>
        r := Err(Io);
      case Chunk(bytes, fds) =>
        fdsSeen := fdsSeen + fds;
        if bytes == [] {
          return Err(Closed);
        }
        buf := buf + bytes;
        r := Ok(());
    }

    method ReceiveMessage() returns (r: Wired<Message>)
      modifies this
      ensures Out(r, View()) == Receive(old(View()))
    {
      hide DecodeMessage, Frame, Utf8, Receive, Fill;
      while true
        invariant Receive(View()) == Receive(old(View()))
        decreases |input|
      {
        ReceiveStep(View());
        if |buf| >= FIXED_HEADER {
          var framed := Frame(buf);
          if framed.Err? {
            return Err(framed.error);
          }
          var total := framed.value.0 + framed.value.1;
          if |buf| >= total {
            var bytes := buf[..total];
            buf := buf[total..];
            var message := ReadMessage(bytes);
            if message.Err? {
              return message;
            }
            var arrived := fdsSeen;
            fdsSeen := 0;
            if arrived != message.value.unixFds {
              return Err(BadMessage("a message with fewer or more descriptors than it declares"));
            }
            heard := heard + [message.value];
            return message;
          }
        }
        if patience == 0 {
          return Err(Timeout);
        }
        patience := patience - 1;
        var filled := FillBuffer();
        if filled.Err? {
          return Err(filled.error);
        }
      }
    }

    method ForgetOwner(dest: Text)
      modifies this`owners
      ensures owners == Forget(old(owners), dest)
    {
      hide Forget;
      var kept: seq<Owner> := [];
      var i := 0;
      assert owners[0..] == owners;
      while i < |owners|
        invariant i <= |owners| && owners == old(owners)
        invariant Forget(old(owners), dest) == kept + Forget(owners[i..], dest)
      {
        ForgetFrom(owners, i, dest);
        if owners[i].name != dest {
          kept := kept + [owners[i]];
        }
        i := i + 1;
      }
      ForgetFrom(owners, i, dest);
      assert kept + [] == kept;
      owners := kept;
    }

    method AwaitReply(mine: u32, owner: Text, dest: Text) returns (r: Answer<seq<Value>>)
      modifies this
      ensures Out(r, View()) == Await(old(View()), mine, owner, dest)
    {
      hide Receive, Decode, Forget, Utf8;
      while true
        invariant Await(View(), mine, owner, dest) == Await(old(View()), mine, owner, dest)
        decreases patience
      {
        if patience == 0 {
          return Err(Local(Timeout));
        }
        patience := patience - 1;
        var reply := ReceiveMessage();
        if reply.Err? {
          return Err(Local(reply.error));
        }
        var verdict := Judge(reply.value, mine, owner);
        if verdict.Some? {
          if SaysGone(verdict.value) {
            ForgetOwner(dest);
          }
          return verdict.value;
        }
      }
    }

    method CallOwner(q: Request) returns (r: Answer<seq<Value>>)
      modifies this
      ensures Out(r, View()) == Call(old(View()), q)
      decreases if OwnsItself(q.dest) then 0 else 1, 2
    {
      hide OwnerOf, Await, Encode, EncodeMessage, Refusal, CallFields, Utf8, OwnsItself;
      var refused := Refusal(fdPassing, q);
      if refused.Some? {
        return Err(Local(refused.value));
      }
      var owner := ResolveOwner(q.dest);
      if owner.Err? {
        return Err(owner.error);
      }
      var body := Codec.EncodeBlock(q.sig, q.body);
      if body.Err? {
        return Err(Local(body.error));
      }
      serial := NextSerial(serial);
      drawn := drawn + 1;
      var mine := serial;
      var message := WriteMessage(METHOD_CALL, 0, mine, CallFields(q, owner.value), body.value);
      if message.Err? {
        return Err(Local(message.error));
      }
      sent := sent + [Sent(drawn, mine, owner.value, q, message.value, |heard|)];
      r := AwaitReply(mine, owner.value, q.dest);
    }

    method ResolveOwner(dest: Text) returns (r: Answer<Text>)
      modifies this
      ensures Out(r, View()) == OwnerOf(old(View()), dest)
      decreases if OwnsItself(dest) then 0 else 1, 1
    {
      hide Call, Utf8, AskOwner;
      if OwnsItself(dest) {
        return Ok(dest);
      }
      var cached := FindOwner(owners, dest);
      if cached.Some? {
        return Ok(cached.value);
      }
      r := AskBus(dest);
      if r.Err? && r.error.Remote? && r.error.name == NO_OWNER {
        var started := CallOwner(Starting(dest));
        if started.Err? {
          return Err(started.error);
        }
        r := AskBus(dest);
      }
      if r.Ok? {
        owners := owners + [Owner(dest, r.value)];
      }
    }

    method AskBus(dest: Text) returns (r: Answer<Text>)
      modifies this
      ensures Out(r, View()) == AskOwner(old(View()), dest)
      decreases 0, 3
    {
      hide Call, Utf8;
      var reply := CallOwner(Asking(dest));
      if reply.Err? {
        return Err(reply.error);
      }
      if !(|reply.value| == 1 && reply.value[0].Str?) {
        return Err(Local(BadMessage("a GetNameOwner reply that is not one name")));
      }
      if !IsUnique(reply.value[0].text) {
        return Err(Local(BadMessage("a name owner that is not unique")));
      }
      r := Ok(reply.value[0].text);
    }

    method ReadLine() returns (r: Wired<seq<byte>>)
      modifies this
      ensures Out(r, View()) == Line(old(View()))
    {
      while true
        invariant Line(View()) == Line(old(View()))
        decreases |input|
      {
        var end := LineEnd(buf, 0);
        if end.Some? {
          var line := buf[..end.value];
          buf := buf[end.value + 2..];
          return if Ascii(line) then Ok(line) else Err(Auth(line));
        }
        if |buf| > MAX_AUTH_LINE {
          return Err(Auth([]));
        }
        var filled := FillBuffer();
        if filled.Err? {
          return Err(filled.error);
        }
      }
    }

    method LogIn() returns (r: Wired<()>)
      modifies this
      ensures Out(r, View()) == Authenticate(old(View()))
    {
      hide Line, Utf8;
      var first := ReadLine();
      if first.Err? {
        return Err(first.error);
      }
      if REJECTED <= first.value {
        return Err(AuthRejected(TrimBack(TrimFront(first.value[|REJECTED|..]))));
      }
      if !(ACCEPTED <= first.value) {
        return Err(Auth(first.value));
      }
      var second := ReadLine();
      if second.Err? {
        return Err(second.error);
      }
      if second.value == AGREED {
        fdPassing := true;
      } else if !(REFUSED <= second.value) {
        return Err(Auth(second.value));
      }
      r := Ok(());
    }

    method SayHello() returns (r: Answer<Text>)
      modifies this
      ensures Out(r, View()) == Hello(old(View()))
    {
      hide Call, Utf8;
      var reply := CallOwner(GREETING);
      if reply.Err? {
        return Err(reply.error);
      }
      if !(|reply.value| == 1 && reply.value[0].Str?) {
        return Err(Local(BadMessage("a Hello reply that is not one name")));
      }
      if !IsUnique(reply.value[0].text) {
        return Err(Local(BadMessage("a Hello reply that is not a unique name")));
      }
      r := Ok(reply.value[0].text);
    }

    method Connect() returns (r: Answer<Text>)
      modifies this
      ensures Out(r, View()) == Open(old(View()))
    {
      hide Authenticate, Hello, Utf8;
      var lines := LogIn();
      if lines.Err? {
        return Err(Local(lines.error));
      }
      r := SayHello();
    }
  }
}
