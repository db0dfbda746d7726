/** The finding of a name's owner, as it shows in what is sent: asked for, started, asked for again. */
module Lookups {
  import opened Results
  import opened Utf8Text
  import opened Wire
  import opened Messages
  import opened Session
  import opened SessionSafety
  import opened SessionRuns
  import opened CallFormat

  /** The calls sent between `c` and `o`. */
  function SentSince(c: Conn, o: Conn): seq<Sent>
    requires Extends(c, o)
  {
    o.sent[|c.sent|..]
  }

  /** One call more was sent, `s`. */
  predicate IsSend(c: Conn, o: Conn, s: Sent, q: Request, to: Text) {
    o.sent == c.sent + [s] && s.q == q && s.to == to && s.after == |c.heard|
  }

  /** A call to one that needs no lookup sends that call, once, or nothing. */
  lemma PlainCallSends(c: Conn, q: Request)
    requires Inv(c) && OwnsItself(q.dest)
    ensures var o := Call(c, q);
            && Extends(c, o.c)
            && (o.c.sent == c.sent || (o.c.sent != [] && IsSend(c, o.c, Last(o.c.sent), q, q.dest)))
  {
    hide SendCall, Await, Judge, Vouched, Refusal, Inv, OwnsItself, Utf8, Forget, MayBeSent;
    RefusedUnsent(c, q);
    CallKeeps(c, q);
    if Refusal(c.fdPassing, q).None? {
      assert OwnerOf(c, q.dest) == Out(Ok(q.dest), c);
      var call := SendCall(c, q, q.dest);
      SendKeeps(c, q, q.dest);
      if call.r.Ok? {
        AwaitKeeps(call.c, call.r.value, q.dest, q.dest);
      }
    }
  }

  /** The bus answers a question with an error of that name. */
  predicate NobodyThere(m: Message, s: Sent) {
    m.kind == 3 && m.sender == Some(BUS) && m.replySerial == Some(s.serial) && m.errorName == Some(NO_OWNER)
  }

  /**
   A name not known is asked for; if the bus says it has no owner it is started, and only then, and
   if that went well asked for once more. So nobody is told a name has no owner unless starting it
   was tried.
   */
  ghost predicate LooksUpInOrder(c: Conn, o: Out<Answer<Text>>, dest: Text) {
    && Extends(c, o.c)
    && var sent := SentSince(c, o.c);
    && |sent| <= 3 && (forall i :: 0 <= i < |sent| ==> sent[i].to == BUS)
    && (|sent| > 0 ==> BusCall(sent[0].q, "GetNameOwner", "s", [Value.Str(dest)]))
    && (|sent| > 1 ==>
          && BusCall(sent[1].q, "StartServiceByName", "su", [Value.Str(dest), Value.Uint32(0)])
          && 0 < sent[1].after <= |o.c.heard| && NobodyThere(o.c.heard[sent[1].after - 1], sent[0]))
    && (|sent| > 2 ==> BusCall(sent[2].q, "GetNameOwner", "s", [Value.Str(dest)]))
    && (o.r.Err? && o.r.error.Remote? && o.r.error.name == NO_OWNER ==> |sent| > 1)
    && (o.r.Ok? ==> |sent| == 1 || |sent| == 3)
  }

  /** A question to the bus: what it sends, and what a refusal of it is. */
  lemma AskSends(c: Conn, dest: Text)
    requires Inv(c) && !OwnsItself(dest)
    ensures var o := AskOwner(c, dest);
            && Inv(o.c) && Extends(c, o.c)
            && (o.c.sent == c.sent || (o.c.sent != [] && IsSend(c, o.c, Last(o.c.sent), Asking(dest), BUS)))
            && (o.r.Ok? || o.r.error.Remote? ==> o.c.sent != c.sent)
            && (o.r.Err? && o.r.error.Remote? && o.r.error.name == NO_OWNER ==>
                  o.c.heard != [] && NobodyThere(Last(o.c.heard), Last(o.c.sent)))
  {
    hide Call, Vouched, Inv, OwnsItself, Utf8, Judge, Decode;
    BusIsItself();
    PlainCallSends(c, Asking(dest));
    CallKeeps(c, Asking(dest));
    var o := AskOwner(c, dest);
    if o.r.Err? && o.r.error.Remote? {
      JudgeIs(Last(o.c.heard), Last(o.c.sent).serial, BUS);
    }
  }

  lemma BusIsItself()
    ensures OwnsItself(BUS)
  {
  }

  lemma StartSends(c: Conn, dest: Text)
    requires Inv(c) && !OwnsItself(dest)
    ensures var o := Call(c, Starting(dest));
            && Inv(o.c) && Extends(c, o.c)
            && (o.c.sent == c.sent || (o.c.sent != [] && IsSend(c, o.c, Last(o.c.sent), Starting(dest), BUS)))
            && (o.r.Ok? || o.r.error.Remote? ==> o.c.sent != c.sent)
  {
    hide Call, Vouched, Inv, OwnsItself, Utf8, Judge, Decode;
    BusIsItself();
    PlainCallSends(c, Starting(dest));
    CallKeeps(c, Starting(dest));
  }

  /** Nothing was sent, or that one call. */
  predicate MaySend(c: Conn, o: Conn, q: Request, to: Text) {
    o.sent == c.sent || (o.sent != [] && IsSend(c, o, Last(o.sent), q, to))
  }

  lemma AskedOnly(c: Conn, o: Out<Answer<Text>>, dest: Text)
    requires Extends(c, o.c) && MaySend(c, o.c, Asking(dest), BUS) && (o.r.Ok? ==> o.c.sent != c.sent)
    requires o.r.Err? && o.r.error.Remote? ==> o.r.error.name != NO_OWNER
    ensures LooksUpInOrder(c, o, dest)
  {
    hide BusCall, Asking, Starting, NobodyThere, Utf8;
    OwnCallsAreSpelled(dest);
  }

  lemma StartedOnly(c: Conn, first: Conn, o: Out<Answer<Text>>, dest: Text)
    requires Extends(c, first) && first.sent != [] && IsSend(c, first, Last(first.sent), Asking(dest), BUS)
    requires first.heard != [] && NobodyThere(Last(first.heard), Last(first.sent))
    requires Extends(first, o.c) && MaySend(first, o.c, Starting(dest), BUS)
    requires o.r.Err? && (o.r.error.Remote? ==> o.c.sent != first.sent)
    ensures LooksUpInOrder(c, o, dest)
  {
    hide BusCall, Asking, Starting, NobodyThere, Utf8;
    OwnCallsAreSpelled(dest);
  }

  lemma AskedAgain(c: Conn, first: Conn, started: Conn, o: Out<Answer<Text>>, dest: Text)
    requires Extends(c, first) && first.sent != [] && IsSend(c, first, Last(first.sent), Asking(dest), BUS)
    requires first.heard != [] && NobodyThere(Last(first.heard), Last(first.sent))
    requires Extends(first, started) && started.sent != [] && IsSend(first, started, Last(started.sent),
        Starting(dest), BUS)
    requires Extends(started, o.c) && MaySend(started, o.c, Asking(dest), BUS) && (o.r.Ok? ==> o.c.sent != started.sent)
    ensures LooksUpInOrder(c, o, dest)
  {
    hide BusCall, Asking, Starting, NobodyThere, Utf8;
    OwnCallsAreSpelled(dest);
  }

  lemma CachedInOrder(c: Conn, o: Out<Answer<Text>>, owners: seq<Owner>, dest: Text)
    requires LooksUpInOrder(c, o, dest)
    ensures LooksUpInOrder(c, Out(o.r, o.c.(owners := owners)), dest)
  {
    hide BusCall, NobodyThere, Utf8;
  }

  /** A name that is not known is looked up in order. */
  lemma LookupIsInOrder(c: Conn, dest: Text)
    requires Inv(c) && !OwnsItself(dest) && FindOwner(c.owners, dest).None?
    ensures LooksUpInOrder(c, OwnerOf(c, dest), dest)
  {
    hide AskOrStart, OwnsItself, Utf8, FindOwner, LooksUpInOrder, Inv;
    StartInOrder(c, dest);
    var asked := AskOrStart(c, dest);
    if asked.r.Ok? {
      CachedInOrder(c, asked, asked.c.owners + [Owner(dest, asked.r.value)], dest);
    }
  }

  lemma StartInOrder(c: Conn, dest: Text)
    requires Inv(c) && !OwnsItself(dest)
    ensures LooksUpInOrder(c, AskOrStart(c, dest), dest)
  {
    hide Call, AskOwner, OwnsItself, Utf8, Asking, Starting, NobodyThere, LooksUpInOrder, Inv, IsSend;
    AskSends(c, dest);
    var first := AskOwner(c, dest);
    if first.r.Err? && first.r.error.Remote? && first.r.error.name == NO_OWNER {
      StartSends(first.c, dest);
      var started := Call(first.c, Starting(dest));
      if started.r.Err? {
        StartedOnly(c, first.c, Out(Err(started.r.error), started.c), dest);
      } else {
        AskSends(started.c, dest);
        AskedAgain(c, first.c, started.c, AskOwner(started.c, dest), dest);
      }
    } else {
      AskedOnly(c, first, dest);
    }
  }

  // ----- what is known is not asked for again -----

  lemma {:induction false} FoundLast(owners: seq<Owner>, o: Owner)
    requires forall x :: x in owners ==> x.name != o.name
    ensures FindOwner(owners + [o], o.name) == Some(o.unique)
  {
    if owners == [] {
      assert owners + [o] == [o];
    } else {
      assert (owners + [o])[0] == owners[0] && (owners + [o])[1..] == owners[1..] + [o];
      FoundLast(owners[1..], o);
    }
  }

  /** A name that was looked up is known. */
  lemma LookedUpIsKnown(c: Conn, dest: Text)
    requires Inv(c) && !OwnsItself(dest) && OwnerOf(c, dest).r.Ok?
    ensures FindOwner(OwnerOf(c, dest).c.owners, dest) == Some(OwnerOf(c, dest).r.value)
  {
    hide AskOrStart, OwnsItself, Utf8, Inv, FindOwner;
    if FindOwner(c.owners, dest).None? {
      AskOrStartKeeps(c, dest);
      FoundLast(c.owners, Owner(dest, AskOrStart(c, dest).r.value));
    }
  }

  /** A call to a name that is known sends itself at most, to the owner that is known. */
  lemma KnownIsNotAsked(c: Conn, q: Request)
    requires Inv(c) && !OwnsItself(q.dest) && FindOwner(c.owners, q.dest).Some?
    ensures var o := Call(c, q);
            o.c.sent == c.sent
            || (o.c.sent != [] && IsSend(c, o.c, Last(o.c.sent), q, FindOwner(c.owners, q.dest).value))
  {
    hide SendCall, Await, Judge, Vouched, Refusal, Inv, OwnsItself, Utf8, Forget, MayBeSent, FindOwner;
    RefusedUnsent(c, q);
    var to := FindOwner(c.owners, q.dest).value;
    if Refusal(c.fdPassing, q).None? {
      assert OwnerOf(c, q.dest) == Out(Ok(to), c);
      var call := SendCall(c, q, to);
      SendKeeps(c, q, to);
      if call.r.Ok? {
        AwaitKeeps(call.c, call.r.value, to, q.dest);
      }
    }
  }

  lemma AnsweredIsKnown(c: Conn, q: Request)
    requires Inv(c) && !OwnsItself(q.dest) && Call(c, q).r.Ok?
    ensures FindOwner(Call(c, q).c.owners, q.dest).Some?
  {
    hide OwnerOf, SendCall, Await, Judge, Vouched, Refusal, Inv, OwnsItself, Utf8, Forget, MayBeSent, FindOwner;
    RefusedUnsent(c, q);
    var owner := OwnerOf(c, q.dest);
    OwnerKeeps(c, q.dest);
    LookedUpIsKnown(c, q.dest);
    var call := SendCall(owner.c, q, owner.r.value);
    SendKeeps(owner.c, q, owner.r.value);
    AwaitKeeps(call.c, call.r.value, owner.r.value, q.dest);
  }

  /** A name is looked up once: behind a call that was answered, the next to the same name sends itself at most. */
  lemma LookedUpOnce(c: Conn, q: Request, next: Request)
    requires Inv(c) && !OwnsItself(q.dest) && Call(c, q).r.Ok? && next.dest == q.dest
    ensures var o := Call(c, q).c;
            var sent := Call(o, next).c.sent;
            sent == o.sent || (sent != [] && sent == o.sent + [Last(sent)] && Last(sent).q == next)
  {
    hide Call, Inv, OwnsItself, Utf8, FindOwner;
    CallKeeps(c, q);
    AnsweredIsKnown(c, q);
    KnownIsNotAsked(Call(c, q).c, next);
  }
}
