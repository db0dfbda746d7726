/**
 What every call keeps, whatever the peers send: the owner cache holds only names the bus
 vouched for, serials are fresh, and an answer is only ever the one the call is held to.
 */
module SessionSafety {
  import opened Results
  import opened Utf8Text
  import opened Wire
  import opened Messages
  import opened Session
  import opened CallFormat

  // ----- serials -----

  /** The serial after `drawn` draws from a new connection. */
  function SerialAfter(drawn: nat): (s: u32)
    ensures drawn > 0 ==> s != 0
  {
    if drawn == 0 then 0 else NextSerial(SerialAfter(drawn - 1))
  }

  lemma {:induction false} SerialCycles(drawn: nat)
    requires drawn > 0
    ensures SerialAfter(drawn) == (drawn - 1) % MAX_SERIAL + 1
  {
    if drawn > 1 {
      SerialCycles(drawn - 1);
      var before := drawn - 2;
      if before % MAX_SERIAL == MAX_SERIAL - 1 {
        assert (before + 1) % MAX_SERIAL == 0;
      } else {
        assert (before + 1) % MAX_SERIAL == before % MAX_SERIAL + 1;
      }
    }
  }

  /** Serials drawn fewer than 2^32 - 1 draws apart differ, and none is zero. */
  lemma {:induction false} SerialsDiffer(first: nat, second: nat)
    requires 0 < first < second < first + MAX_SERIAL
    ensures SerialAfter(first) != SerialAfter(second)
  {
    SerialCycles(first);
    SerialCycles(second);
    var q1, q2 := (first - 1) / MAX_SERIAL, (second - 1) / MAX_SERIAL;
    var r1, r2 := (first - 1) % MAX_SERIAL, (second - 1) % MAX_SERIAL;
    assert second - first == MAX_SERIAL * (q2 - q1) + (r2 - r1);
  }

  // ----- the invariant of a connection -----

  /** A cached owner stands on a `GetNameOwner` call for that name and the bus's own later reply to it. */
  ghost predicate Vouched(c: Conn, o: Owner) {
    exists k, j :: 0 <= k < |c.sent| && c.sent[k].after <= j < |c.heard| && VouchedBy(c.sent[k], c.heard[j], o)
  }

  predicate VouchedBy(s: Sent, m: Message, o: Owner) {
    && s.q == Asking(o.name) && s.to == BUS
    && m.kind == METHOD_RETURN && m.sender == Some(BUS) && m.replySerial == Some(s.serial)
    && Decode(m.signature, m.body) == Ok([Value.Str(o.unique)])
  }

  ghost predicate CacheOk(c: Conn) {
    && DistinctNames(c.owners)
    && (forall o :: o in c.owners ==> !OwnsItself(o.name) && IsUnique(o.unique) && Vouched(c, o))
  }

  /** Every message went out under the serial of its own draw, and draws only grow. */
  ghost predicate SerialsOk(c: Conn) {
    && c.serial == SerialAfter(c.drawn)
    && (forall i :: 0 <= i < |c.sent| ==>
          0 < c.sent[i].draw <= c.drawn && c.sent[i].serial == SerialAfter(c.sent[i].draw))
    && (forall i, j :: 0 <= i < j < |c.sent| ==> c.sent[i].draw < c.sent[j].draw)
  }

  /** Everything sent is on the wire the call it stands for. */
  ghost predicate SentOk(c: Conn) {
    forall i :: 0 <= i < |c.sent| ==> Spoken(c.sent[i])
  }

  ghost predicate Inv(c: Conn) {
    CacheOk(c) && SerialsOk(c) && SentOk(c)
  }

  /** What a later connection keeps of an earlier one: everything already sent and heard. */
  predicate Extends(c: Conn, o: Conn) {
    c.sent <= o.sent && c.heard <= o.heard && c.fdPassing == o.fdPassing && c.drawn <= o.drawn
  }

  lemma VouchedLater(c: Conn, later: Conn, o: Owner)
    requires Vouched(c, o) && Extends(c, later)
    ensures Vouched(later, o)
  {
    var k, j :| 0 <= k < |c.sent| && c.sent[k].after <= j < |c.heard| && VouchedBy(c.sent[k], c.heard[j], o);
    assert later.sent[k] == c.sent[k] && later.heard[j] == c.heard[j];
  }

  /** The cache is kept when it only loses entries and nothing sent or heard is lost. */
  lemma {:induction false} ForgetKeeps(c: Conn, o: Conn, dest: Text)
    requires Inv(c) && Extends(c, o) && o.owners == Forget(c.owners, dest)
    requires o.serial == c.serial && o.drawn == c.drawn && o.sent == c.sent
    ensures Inv(o)
  {
    ForgetDistinct(c.owners, dest);
    forall x | x in o.owners
      ensures Vouched(o, x)
    {
      VouchedLater(c, o, x);
    }
  }

  ghost predicate DistinctNames(owners: seq<Owner>) {
    forall i, j :: 0 <= i < j < |owners| ==> owners[i].name != owners[j].name
  }

  lemma {:induction false} ForgetDistinct(owners: seq<Owner>, dest: Text)
    requires DistinctNames(owners)
    ensures DistinctNames(Forget(owners, dest))
  {
    if owners != [] {
      var tail := owners[1..];
      assert forall i :: 0 <= i < |tail| ==> tail[i] == owners[i + 1];
      ForgetDistinct(tail, dest);
      forall x | x in Forget(tail, dest)
        ensures x.name != owners[0].name
      {
        var i :| 0 <= i < |tail| && tail[i] == x;
        assert owners[i + 1] == x;
      }
      NamesCons(owners[0], Forget(tail, dest));
    }
  }

  lemma NamesCons(o: Owner, rest: seq<Owner>)
    requires DistinctNames(rest) && forall x :: x in rest ==> x.name != o.name
    ensures DistinctNames([o] + rest)
  {
    var all := [o] + rest;
    forall i, j | 0 <= i < j < |all|
      ensures all[i].name != all[j].name
    {
      assert all[j] == rest[j - 1] && all[j] in rest;
      if i > 0 {
        assert all[i] == rest[i - 1];
      }
    }
  }

  lemma {:induction false} ForgetNothing(owners: seq<Owner>, dest: Text)
    requires forall o :: o in owners ==> o.name != dest
    ensures Forget(owners, dest) == owners
  {
    if owners != [] {
      ForgetNothing(owners[1..], dest);
    }
  }

  lemma InvLater(c: Conn, o: Conn)
    requires Inv(c) && Extends(c, o) && o.owners == c.owners
    requires o.serial == c.serial && o.drawn == c.drawn && o.sent == c.sent
    ensures Inv(o)
  {
    forall x | x in o.owners
      ensures Vouched(o, x)
    {
      VouchedLater(c, o, x);
    }
  }

  // ----- one wait for a reply -----

  /** `r` is what the last message heard answered to the call `serial` held to `owner`. */
  predicate AnsweredBy(c: Conn, o: Out<Answer<seq<Value>>>, serial: u32, owner: Text) {
    && |o.c.heard| > |c.heard|
    && Judge(o.c.heard[|o.c.heard| - 1], serial, owner) == Some(o.r)
  }

  lemma LocalIsNotGone()
    ensures forall e :: !SaysGone(Err(Local(e)))
  {
  }

  lemma {:induction false} AwaitKeeps(c: Conn, serial: u32, owner: Text, dest: Text)
    requires Inv(c)
    ensures var o := Await(c, serial, owner, dest);
            && Inv(o.c) && Extends(c, o.c)
            && o.c.sent == c.sent && o.c.drawn == c.drawn
            && o.c.owners == (if SaysGone(o.r) then Forget(c.owners, dest) else c.owners)
            && (AnsweredBy(c, o, serial, owner) || (o.r.Err? && !o.r.error.Remote?))
    decreases c.patience
  {
    hide Receive, Judge, SaysGone, Inv, Forget;
    LocalIsNotGone();
    if c.patience > 0 {
      var got := Receive(c.(patience := c.patience - 1));
      InvLater(c, got.c);
      if got.r.Ok? {
        var verdict := Judge(got.r.value, serial, owner);
        if verdict.None? {
          AwaitKeeps(got.c, serial, owner, dest);
        } else if SaysGone(verdict.value) {
          ForgetKeeps(got.c, Await(c, serial, owner, dest).c, dest);
        }
      }
    } else {
      InvLater(c, c);
    }
  }

  // ----- a whole call, its lookups included -----

  function Last<T>(s: seq<T>): T
    requires s != []
  {
    s[|s| - 1]
  }

  /**
   `r` is what the last message heard, since then, answers to the last call sent, held to
   whom it was sent to; both are new since `c`.
   */
  ghost predicate Settled(c: Conn, o: Conn, r: Answer<seq<Value>>) {
    && |o.sent| > |c.sent| && |o.heard| > Last(o.sent).after >= |c.heard|
    && Judge(Last(o.heard), Last(o.sent).serial, Last(o.sent).to) == Some(r)
  }

  /** The peer a call to `dest` goes to: itself, or the owner the bus named for it. */
  ghost predicate Addressed(c: Conn, dest: Text, to: Text) {
    if OwnsItself(dest) then to == dest else IsUnique(to) && Vouched(c, Owner(dest, to))
  }

  /** A question about the owner of `dest`, or the starting of it, put to the bus. */
  ghost predicate LooksUp(s: Sent, dest: Text) {
    !OwnsItself(dest) && s.to == BUS && (s.q == Asking(dest) || s.q == Starting(dest))
  }

  /** The call `q` itself, sent to the peer it is for. */
  ghost predicate IsCall(c: Conn, s: Sent, q: Request) {
    s.q == q && Addressed(c, q.dest, s.to)
  }

  /** A lookup that is refused is refused by the bus, in answer to what it was asked. */
  ghost predicate LookupRefused(c: Conn, o: Conn, dest: Text, error: CallError) {
    error.Remote? ==> Settled(c, o, Err(error)) && LooksUp(Last(o.sent), dest)
  }

  /** What every call keeps and what its answer rests on. */
  ghost predicate CallGood(c: Conn, q: Request, o: Out<Answer<seq<Value>>>) {
    && Inv(o.c) && Extends(c, o.c)
    && (OwnsItself(q.dest) ==> o.c.owners == c.owners)
    && (SaysGone(o.r) ==> forall x :: x in o.c.owners ==> x.name != q.dest)
    && (o.r.Ok? || o.r.error.Remote? ==> Settled(c, o.c, o.r))
    && (o.r.Ok? ==> IsCall(o.c, Last(o.c.sent), q))
    && (o.r.Err? && o.r.error.Remote? ==> IsCall(o.c, Last(o.c.sent), q) || LooksUp(Last(o.c.sent), q.dest))
  }

  lemma SendKeeps(c: Conn, q: Request, owner: Text)
    requires Inv(c) && MayBeSent(c.fdPassing, q)
    ensures var o := SendCall(c, q, owner);
            && Inv(o.c) && Extends(c, o.c) && o.c.owners == c.owners && o.c.heard == c.heard
            && (o.r.Ok? ==> && |o.c.sent| == |c.sent| + 1
                            && Last(o.c.sent).serial == o.r.value && Last(o.c.sent).to == owner
                            && Last(o.c.sent).q == q && Last(o.c.sent).after == |c.heard|)
            && (o.r.Err? ==> o.c.sent == c.sent)
  {
    hide Encode, EncodeMessage, Utf8, CallFields, Spoken, FdsInAll, Below;
    var o := SendCall(c, q, owner).c;
    if SendCall(c, q, owner).r.Ok? {
      SentIsSpoken(c, q, owner);
    }
    forall x | x in o.owners
      ensures Vouched(o, x)
    {
      VouchedLater(c, o, x);
    }
  }

  lemma OwnIsNotCached(c: Conn, dest: Text)
    requires Inv(c) && OwnsItself(dest)
    ensures Forget(c.owners, dest) == c.owners
  {
    ForgetNothing(c.owners, dest);
  }

  lemma {:induction false} CallKeeps(c: Conn, q: Request)
    requires Inv(c)
    ensures CallGood(c, q, Call(c, q))
    decreases if OwnsItself(q.dest) then 0 else 1, 2
  {
    hide OwnerOf, SendCall, Await, Judge, Vouched, Refusal, Inv, OwnsItself, Utf8, Forget, MayBeSent;
    RefusedUnsent(c, q);
    if Refusal(c.fdPassing, q).None? {
      var owner := OwnerOf(c, q.dest);
      OwnerKeeps(c, q.dest);
      if owner.r.Ok? {
        var to := owner.r.value;
        var call := SendCall(owner.c, q, to);
        SendKeeps(owner.c, q, to);
        if call.r.Ok? {
          AwaitKeeps(call.c, call.r.value, to, q.dest);
          var o := Await(call.c, call.r.value, to, q.dest);
          if OwnsItself(q.dest) {
            OwnIsNotCached(call.c, q.dest);
          } else {
            VouchedLater(owner.c, o.c, Owner(q.dest, to));
          }
        }
      }
    }
  }

  lemma {:induction false} OwnerKeeps(c: Conn, dest: Text)
    requires Inv(c)
    ensures var o := OwnerOf(c, dest);
            && Inv(o.c) && Extends(c, o.c)
            && (OwnsItself(dest) ==> o.c == c && o.r == Ok(dest))
            && (o.r.Ok? ==> Addressed(o.c, dest, o.r.value))
            && (o.r.Err? ==> o.c.owners == c.owners && forall x :: x in o.c.owners ==> x.name != dest)
            && (o.r.Err? ==> LookupRefused(c, o.c, dest, o.r.error))
    decreases if OwnsItself(dest) then 0 else 1, 1
  {
    hide Judge, Vouched, OwnsItself, Utf8, Forget, SerialsOk, AskOrStart;
    if !OwnsItself(dest) && FindOwner(c.owners, dest).None? {
      AskOrStartKeeps(c, dest);
      var asked := AskOrStart(c, dest);
      if asked.r.Ok? {
        CachePush(asked.c, Owner(dest, asked.r.value));
        VouchedLater(asked.c, OwnerOf(c, dest).c, Owner(dest, asked.r.value));
      }
    }
  }

  lemma CachePush(c: Conn, o: Owner)
    requires Inv(c) && Vouched(c, o) && !OwnsItself(o.name) && IsUnique(o.unique)
    requires forall x :: x in c.owners ==> x.name != o.name
    ensures Inv(c.(owners := c.owners + [o]))
  {
    hide SerialsOk, SentOk, Vouched, DistinctNames, OwnsItself, IsUnique;
    var next := c.(owners := c.owners + [o]);
    NamesPush(c.owners, o);
    SentStays(c, next);
    forall x | x in next.owners
      ensures !OwnsItself(x.name) && IsUnique(x.unique) && Vouched(next, x)
    {
      assert x in c.owners || x == o;
      VouchedLater(c, next, x);
    }
  }

  lemma SentStays(c: Conn, o: Conn)
    requires SerialsOk(c) && SentOk(c) && o.serial == c.serial && o.drawn == c.drawn && o.sent == c.sent
    ensures SerialsOk(o) && SentOk(o)
  {
    hide Spoken, SerialAfter;
  }

  lemma NamesPush(owners: seq<Owner>, o: Owner)
    requires DistinctNames(owners) && forall x :: x in owners ==> x.name != o.name
    ensures DistinctNames(owners + [o])
  {
    var all := owners + [o];
    forall i, j | 0 <= i < j < |all|
      ensures all[i].name != all[j].name
    {
      assert all[i] == owners[i] && owners[i] in owners;
    }
  }

  lemma {:induction false} AskOrStartKeeps(c: Conn, dest: Text)
    requires Inv(c) && !OwnsItself(dest)
    ensures var o := AskOrStart(c, dest);
            && Inv(o.c) && Extends(c, o.c) && o.c.owners == c.owners
            && (o.r.Ok? ==> IsUnique(o.r.value) && Vouched(o.c, Owner(dest, o.r.value)))
            && (o.r.Err? ==> LookupRefused(c, o.c, dest, o.r.error))
    decreases 1, 0
  {
    hide Judge, Vouched, Utf8, Forget, Inv, AskOwner, Call;
    AskKeeps(c, dest);
    var first := AskOwner(c, dest);
    if first.r.Err? && first.r.error.Remote? && first.r.error.name == NO_OWNER {
      CallKeeps(first.c, Starting(dest));
      var started := Call(first.c, Starting(dest));
      AskKeeps(started.c, dest);
    }
  }

  lemma {:induction false} AskKeeps(c: Conn, dest: Text)
    requires Inv(c)
    ensures var o := AskOwner(c, dest);
            && Inv(o.c) && Extends(c, o.c) && o.c.owners == c.owners
            && (o.r.Ok? ==> IsUnique(o.r.value) && Vouched(o.c, Owner(dest, o.r.value)))
            && (o.r.Err? && !OwnsItself(dest) ==> LookupRefused(c, o.c, dest, o.r.error))
    decreases 0, 3
  {
    hide Utf8, Forget, Inv, Call, Decode;
    CallKeeps(c, Asking(dest));
    var reply := Call(c, Asking(dest));
    var o := AskOwner(c, dest);
    if o.r.Ok? {
      assert reply.r.value == [Value.Str(o.r.value)];
      assert VouchedBy(Last(o.c.sent), Last(o.c.heard), Owner(dest, o.r.value));
    }
  }
}
