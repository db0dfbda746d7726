/**
 What a method call is on the wire, and that the calls this client sends are such calls: the
 header fields by their codes, the words of the bus letter by letter.
 */
module CallFormat {
  import opened Results
  import opened Bytes
  import opened Utf8Text
  import opened Signatures
  import opened Wire
  import opened Messages
  import opened MessageRoundTrip
  import opened Format
  import opened Conformance
  import opened MessageFormat
  import opened Session

  // ----- the words -----

  lemma CharsAreSpelled(s: string)
    requires forall i :: 0 <= i < |s| ==> s[i] < 128 as char
    ensures SpelledOut(Chars(s), s)
  {
  }

  lemma BusIsSpelled()
    ensures SpelledOut(BUS, "org.freedesktop.DBus")
  {
    CharsAreSpelled("org.freedesktop.DBus");
  }

  lemma BusPathIsSpelled()
    ensures SpelledOut(BUS_PATH, "/org/freedesktop/DBus")
  {
    CharsAreSpelled("/org/freedesktop/DBus");
  }

  lemma NoOwnerIsSpelled()
    ensures SpelledOut(NO_OWNER, "org.freedesktop.DBus.Error.NameHasNoOwner")
  {
    CharsAreSpelled("org.freedesktop.DBus.Error.NameHasNoOwner");
  }

  lemma ServiceUnknownIsSpelled()
    ensures SpelledOut(SERVICE_UNKNOWN, "org.freedesktop.DBus.Error.ServiceUnknown")
  {
    CharsAreSpelled("org.freedesktop.DBus.Error.ServiceUnknown");
  }

  lemma GetNameOwnerIsSpelled()
    ensures SpelledOut(GET_NAME_OWNER, "GetNameOwner")
  {
    CharsAreSpelled("GetNameOwner");
  }

  lemma StartServiceIsSpelled()
    ensures SpelledOut(START_SERVICE, "StartServiceByName")
  {
    CharsAreSpelled("StartServiceByName");
  }

  lemma HelloIsSpelled()
    ensures SpelledOut(HELLO, "Hello")
  {
    CharsAreSpelled("Hello");
  }

  lemma RejectedIsSpelled()
    ensures SpelledOut(REJECTED, "REJECTED")
  {
    CharsAreSpelled("REJECTED");
  }

  lemma AcceptedIsSpelled()
    ensures SpelledOut(ACCEPTED, "OK ")
  {
    CharsAreSpelled("OK ");
  }

  lemma AgreedIsSpelled()
    ensures SpelledOut(AGREED, "AGREE_UNIX_FD")
  {
    CharsAreSpelled("AGREE_UNIX_FD");
  }

  lemma RefusedIsSpelled()
    ensures SpelledOut(REFUSED, "ERROR")
  {
    CharsAreSpelled("ERROR");
  }

  /** A call to the bus itself, of one of its own methods. */
  ghost predicate BusCall(q: Request, member: string, sig: string, body: seq<Value>) {
    && SpelledOut(q.dest, "org.freedesktop.DBus") && SpelledOut(q.path, "/org/freedesktop/DBus")
    && SpelledOut(q.iface, "org.freedesktop.DBus") && SpelledOut(q.member, member)
    && SpelledOut(q.sig, sig) && q.body == body && q.fds == 0
  }

  /** The three calls a client makes of its own accord. */
  lemma OwnCallsAreSpelled(dest: Text)
    ensures BusCall(Asking(dest), "GetNameOwner", "s", [Value.Str(dest)])
    ensures BusCall(Starting(dest), "StartServiceByName", "su", [Value.Str(dest), Value.Uint32(0)])
    ensures BusCall(GREETING, "Hello", "", [])
  {
    hide SpelledOut, Chars;
    BusIsSpelled();
    BusPathIsSpelled();
    GetNameOwnerIsSpelled();
    StartServiceIsSpelled();
    HelloIsSpelled();
    CharsAreSpelled("s");
    CharsAreSpelled("su");
    NothingSpelled();
  }

  // ----- descriptors -----

  /** The descriptor indices in a value. */
  function FdsIn(v: Value): set<nat>
    decreases v
  {
    match v
    case Fd(index) => {index}
    case Array(items) => FdsInAll(items)
    case Struct(fields) => FdsInAll(fields)
    case Dict(entries) => FdsInEntries(entries)
    case Variant(inner) => FdsIn(inner)
    case _ => {}
  }

  function FdsInAll(vs: seq<Value>): set<nat>
    decreases vs
  {
    if vs == [] then {} else FdsIn(vs[0]) + FdsInAll(vs[1..])
  }

  function FdsInEntries(entries: seq<Entry>): set<nat>
    decreases entries
  {
    if entries == [] then {} else FdsIn(entries[0].value) + FdsInEntries(entries[1..])
  }

  predicate Below(fds: set<nat>, count: nat) {
    forall i :: i in fds ==> i < count
  }

  lemma {:induction false} BadFdIs(v: Value, count: nat)
    ensures BadFd(v, count).None? <==> Below(FdsIn(v), count)
    ensures BadFd(v, count).Some? ==> BadFd(v, count).value in FdsIn(v) && BadFd(v, count).value >= count
    decreases v, 0
  {
    match v {
      case Array(items) => BadFdInIs(items, count);
      case Struct(fields) => BadFdInIs(fields, count);
      case Dict(entries) => BadFdInEntriesIs(entries, count);
      case Variant(inner) => BadFdIs(inner, count);
      case _ =>
    }
  }

  lemma {:induction false} BadFdInIs(vs: seq<Value>, count: nat)
    ensures BadFdIn(vs, count).None? <==> Below(FdsInAll(vs), count)
    ensures BadFdIn(vs, count).Some? ==> BadFdIn(vs, count).value in FdsInAll(vs) && BadFdIn(vs, count).value >= count
    decreases vs, 0
  {
    hide FdsIn, BadFd;
    if vs != [] {
      BadFdIs(vs[0], count);
      BadFdInIs(vs[1..], count);
    }
  }

  lemma {:induction false} BadFdInEntriesIs(entries: seq<Entry>, count: nat)
    ensures BadFdInEntries(entries, count).None? <==> Below(FdsInEntries(entries), count)
    ensures BadFdInEntries(entries, count).Some? ==>
              && BadFdInEntries(entries, count).value in FdsInEntries(entries)
              && BadFdInEntries(entries, count).value >= count
    decreases entries, 0
  {
    hide FdsIn, BadFd;
    if entries != [] {
      BadFdIs(entries[0].value, count);
      BadFdInEntriesIs(entries[1..], count);
    }
  }

  /** A call names a destination, brings at most 253 descriptors, if the bus passes any, and names no others. */
  predicate MayBeSent(fdPassing: bool, q: Request) {
    q.dest != [] && (q.fds > 0 ==> fdPassing) && q.fds <= 253 && Below(FdsInAll(q.body), q.fds)
  }

  /** A call that may not be sent is refused, with the first of the reasons, and nothing changes. */
  lemma RefusedUnsent(c: Conn, q: Request)
    ensures Refusal(c.fdPassing, q).None? <==> MayBeSent(c.fdPassing, q)
    ensures !MayBeSent(c.fdPassing, q) ==>
              && Call(c, q).c == c && Call(c, q).r.Err? && Call(c, q).r.error.Local?
              && var why := Call(c, q).r.error.why;
              && (q.dest == [] ==> why == NoDestination)
              && (q.dest != [] && q.fds > 0 && !c.fdPassing ==> why == NoFdPassing)
              && (q.dest != [] && q.fds > 253 && c.fdPassing ==> why == TooManyFds(q.fds))
              && (why.FdIndex? ==> why.index in FdsInAll(q.body) && why.index >= q.fds)
              && (why == NoDestination || why == NoFdPassing || why.TooManyFds? || why.FdIndex?)
  {
    hide OwnerOf, SendCall, Await, FdsInAll, BadFdIn, Below, Utf8;
    BadFdInIs(q.body, q.fds);
    BelowAll(FdsInAll(q.body), q.fds);
  }

  lemma BelowAll(fds: set<nat>, count: nat)
    ensures Below(fds, count) <==> forall i :: i in fds ==> i < count
  {
  }

  // ----- a call on the wire -----

  /** The header fields of a call: 1 the path, 6 the peer, 3 the member, and 2, 8 and 9 where they say something. */
  predicate CallField(f: Field, q: Request, to: Text) {
    || f == Field(1, Value.ObjectPath(q.path))
    || f == Field(6, Value.Str(to))
    || f == Field(3, Value.Str(q.member))
    || (f == Field(2, Value.Str(q.iface)) && q.iface != [])
    || (f == Field(8, Value.Signature(q.sig)) && q.sig != [])
    || (0 < q.fds < 0x1_0000_0000 && f == Field(9, Value.Uint32(q.fds)))
  }

  /** Those fields, each once, and no other. */
  ghost predicate AreCallFields(fields: seq<Field>, q: Request, to: Text) {
    Distinct(fields) && forall f: Field :: f in fields <==> CallField(f, q, to)
  }

  /**
   What went out is the call it stands for: a message of kind 1 without flags, under its serial,
   with the fields of that call to that peer, and a body of its signature that holds its values.
   */
  ghost predicate Spoken(s: Sent) {
    && s.q.fds <= 253 && Below(FdsInAll(s.q.body), s.q.fds)
    && exists end: nat, fields: seq<Field>, body: seq<byte> ::
         && MessageAt(s.bytes, end, 1, 0, s.serial, fields, body)
         && AreCallFields(fields, s.q, s.to) && BlockAt(s.q.sig, body, s.q.body)
  }

  lemma CallFieldsAre(q: Request, to: Text)
    requires q.fds <= 253
    ensures AreCallFields(CallFields(q, to), q, to)
  {
    hide Utf8;
    var fields := CallFields(q, to);
    var path, dest := Field(1, Value.ObjectPath(q.path)), Field(6, Value.Str(to));
    var member := Field(3, Value.Str(q.member));
    var iface := if q.iface != [] then [Field(2, Value.Str(q.iface))] else [];
    var sig := if q.sig != [] then [Field(8, Value.Signature(q.sig))] else [];
    var fds := if q.fds > 0 then [Field(9, Value.Uint32(q.fds))] else [];
    assert fields == [path, dest] + iface + [member] + sig + fds;
    forall f: Field
      ensures f in fields <==> CallField(f, q, to)
    {
      assert f in fields <==> f in [path, dest] || f in iface || f in [member] || f in sig || f in fds;
    }
  }

  /** Every call that is sent is spoken. */
  lemma SentIsSpoken(c: Conn, q: Request, owner: Text)
    requires q.fds <= 253 && Below(FdsInAll(q.body), q.fds) && SendCall(c, q, owner).r.Ok?
    ensures Spoken(SendCall(c, q, owner).c.sent[|c.sent|])
  {
    hide Encode, EncodeMessage, CallFields, Utf8, AreCallFields, BlockAt, MessageAt, FdsInAll;
    var s := SendCall(c, q, owner).c.sent[|c.sent|];
    var body := Encode(q.sig, q.body).value;
    var fields := CallFields(q, owner);
    EncodeIsOfTheFormat(q.sig, q.body);
    EncodedMessageIs(METHOD_CALL, 0, s.serial, fields, body);
    CallFieldsAre(q, owner);
    assert METHOD_CALL == 1 && EncodeMessage(1, 0, s.serial, fields, body) == Ok(s.bytes);
    var end: nat :| MessageAt(s.bytes, end, 1, 0, s.serial, fields, body);
    assert MessageAt(s.bytes, end, 1, 0, s.serial, fields, body)
        && AreCallFields(fields, s.q, s.to) && BlockAt(s.q.sig, body, s.q.body);
  }

  /** A unique name begins with a colon. */
  lemma UniqueIs(name: seq<byte>)
    ensures IsUnique(name) <==> |name| > 0 && name[0] == ':' as int
  {
  }
}
