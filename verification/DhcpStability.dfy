/** What one client sees: the same address again, and never somebody's reservation. */
module DhcpStability {
  import opened Common
  import opened Mac
  import opened DhcpPool
  import opened DhcpLeases
  import opened DhcpRuns

  predicate ReservationsFixed(ops: seq<Op>) {
    forall k :: 0 <= k < |ops| ==> !ops[k].SetReservations?
  }

  /** Client `mac`, without reservation, holds lease l on an address nobody has reserved. */
  ghost predicate Holds(w: World, mac: string, l: Lease) {
    !HasReservation(w.t, mac) && !Reserved(w.t, l.ip) && mac in w.t.leases && w.t.leases[mac] == l
  }

  lemma NextKeepsHold(cfg: Config, w: World, op: Op, mac: string, l: Lease)
    requires InPool(cfg, w.t.cursor) && Holds(w, mac, l) && Active(l, w.now) && !op.SetReservations?
    ensures Holds(Next(cfg, w, op), mac, l)
  {
  }

  lemma {:induction false} TimePasses(cfg: Config, w: World, ops: seq<Op>)
    requires InPool(cfg, w.t.cursor)
    ensures w.now <= Run(cfg, w, ops).now
    decreases |ops|
  {
    if ops != [] {
      TimePasses(cfg, Next(cfg, w, ops[0]), ops[1..]);
    }
  }

  lemma {:induction false} RunKeepsHold(cfg: Config, w: World, ops: seq<Op>, mac: string, l: Lease)
    requires InPool(cfg, w.t.cursor) && Holds(w, mac, l) && ReservationsFixed(ops)
    requires Active(l, Run(cfg, w, ops).now)
    ensures Holds(Run(cfg, w, ops), mac, l)
    decreases |ops|
  {
    if ops != [] {
      TimePasses(cfg, w, ops);
      NextKeepsHold(cfg, w, ops[0], mac, l);
      RunKeepsHold(cfg, Next(cfg, w, ops[0]), ops[1..], mac, l);
    }
  }

  lemma {:induction false} RunKeepsReservations(cfg: Config, w: World, ops: seq<Op>)
    requires InPool(cfg, w.t.cursor) && ReservationsFixed(ops)
    ensures Run(cfg, w, ops).t.reservations == w.t.reservations
    decreases |ops|
  {
    if ops != [] {
      RunKeepsReservations(cfg, Next(cfg, w, ops[0]), ops[1..]);
    }
  }

  /** From w on, the client is answered `a` until its lease, as it now stands, is over. */
  ghost predicate AnswerIsStable(cfg: Config, w: World, mac: string, a: Addr)
    requires InPool(cfg, w.t.cursor)
  {
    forall ops: seq<Op> ::
      ReservationsFixed(ops) && HasActiveLease(w.t, mac, Run(cfg, w, ops).now) ==>
        AnswerTo(cfg, Run(cfg, w, ops), mac) == Some(a)
  }

  /** What a client without reservation is given, it holds, unless the address is reserved. */
  lemma AnswerIsHeld(cfg: Config, w: World, mac: string)
    requires InPool(cfg, w.t.cursor) && !HasReservation(w.t, mac) && AnswerTo(cfg, w, mac).Some?
    ensures var w', a := Next(cfg, w, Op.Allocate(mac)), AnswerTo(cfg, w, mac).value;
            && mac in w'.t.leases && w'.t.leases[mac].ip == a
            && w'.t.reservations == w.t.reservations
            && (Reserved(w.t, a) ==> HasActiveLease(w.t, mac, w.now) && w.t.leases[mac].ip == a && w' == w)
  {
  }

  /** Whoever owns the reservation takes the address, and it is lost to the other client. */
  lemma ReservedAddressIsLost(cfg: Config, w: World, mac: string, a: Addr)
    requires InPool(cfg, w.t.cursor) && !HasReservation(w.t, mac) && Reserved(w.t, a)
    requires HasActiveLease(w.t, mac, w.now) && w.t.leases[mac].ip == a
    ensures !AnswerIsStable(cfg, w, mac, a)
  {
    var owner :| owner in w.t.reservations && w.t.reservations[owner] == a;
    NormalStays(owner);
    assert HasReservation(w.t, owner) && owner != mac;
    var ops := [Op.Allocate(owner)];
    assert ops[1..] == [];
    var w' := Next(cfg, w, Op.Allocate(owner));
    assert Run(cfg, w, ops) == w';
    assert mac !in w'.t.leases && Reserved(w'.t, a);
    if AnswerTo(cfg, w', mac) == Some(a) {
      AnswerIsHeld(cfg, w', mac);
    }
  }

  /**
   Once a client is answered an address, every later request of it before that
   lease ends is answered the same, whatever others do and while reservations
   stay as they are: exactly when the client has a reservation or the address
   is not reserved for somebody else.
   */
  lemma AnswerIsStableIff(cfg: Config, w: World, mac: string)
    requires InPool(cfg, w.t.cursor) && AnswerTo(cfg, w, mac).Some?
    ensures var a := AnswerTo(cfg, w, mac).value;
            AnswerIsStable(cfg, Next(cfg, w, Op.Allocate(mac)), mac, a)
            <==> HasReservation(w.t, mac) || !Reserved(w.t, a)
  {
    var a, w' := AnswerTo(cfg, w, mac).value, Next(cfg, w, Op.Allocate(mac));
    if HasReservation(w.t, mac) {
      forall ops: seq<Op> | ReservationsFixed(ops)
        ensures AnswerTo(cfg, Run(cfg, w', ops), mac) == Some(a)
      {
        RunKeepsReservations(cfg, w', ops);
      }
    } else {
      AnswerIsHeld(cfg, w, mac);
      if Reserved(w.t, a) {
        ReservedAddressIsLost(cfg, w', mac, a);
      } else {
        forall ops: seq<Op> | ReservationsFixed(ops) && HasActiveLease(w'.t, mac, Run(cfg, w', ops).now)
          ensures AnswerTo(cfg, Run(cfg, w', ops), mac) == Some(a)
        {
          RunKeepsHold(cfg, w', ops, mac, w'.t.leases[mac]);
        }
      }
    }
  }

  // Reserved addresses and clients without reservation.

  /** A client without reservation still holds an address that was reserved after it got it. */
  ghost predicate StaleLease(w: World, mac: string) {
    !HasReservation(w.t, mac) && HasActiveLease(w.t, mac, w.now) && Reserved(w.t, w.t.leases[mac].ip)
  }

  /** A client without reservation is given a reserved address exactly when it has such a stale lease. */
  lemma ReservedAddressGivenIff(cfg: Config, w: World, mac: string)
    requires InPool(cfg, w.t.cursor) && !HasReservation(w.t, mac)
    ensures (AnswerTo(cfg, w, mac).Some? && Reserved(w.t, AnswerTo(cfg, w, mac).value)) <==> StaleLease(w, mac)
  {
  }

  ghost predicate NoStaleLeases(w: World) {
    forall mac :: !StaleLease(w, mac)
  }

  lemma AllocateKeepsNoStale(cfg: Config, w: World, client: string, mac: string)
    requires InPool(cfg, w.t.cursor) && !StaleLease(w, mac)
    ensures !StaleLease(Next(cfg, w, Op.Allocate(client)), mac)
  {
  }

  lemma NextKeepsNoStale(cfg: Config, w: World, op: Op)
    requires InPool(cfg, w.t.cursor) && NoStaleLeases(w) && !op.SetReservations?
    ensures NoStaleLeases(Next(cfg, w, op))
  {
    forall mac
      ensures !StaleLease(Next(cfg, w, op), mac)
    {
      assert !StaleLease(w, mac);
      if op.Allocate? {
        AllocateKeepsNoStale(cfg, w, op.mac, mac);
      }
    }
  }

  lemma {:induction false} RunKeepsNoStale(cfg: Config, w: World, ops: seq<Op>)
    requires InPool(cfg, w.t.cursor) && NoStaleLeases(w) && ReservationsFixed(ops)
    ensures NoStaleLeases(Run(cfg, w, ops))
    decreases |ops|
  {
    if ops != [] {
      NextKeepsNoStale(cfg, w, ops[0]);
      RunKeepsNoStale(cfg, Next(cfg, w, ops[0]), ops[1..]);
    }
  }

  /** With the reservations of the boot configuration kept, no other client ever gets a reserved address. */
  lemma ReservationsAreRespected(cfg: Config, r: Reservations, start: int, ops: seq<Op>, mac: string)
    requires ReservationsFixed(ops)
    ensures InPool(cfg, cfg.start)
    ensures var w := Run(cfg, Boot(cfg, r, start), ops);
            AnswerTo(cfg, w, mac).Some? && !HasReservation(w.t, mac) ==> !Reserved(w.t, AnswerTo(cfg, w, mac).value)
  {
    BootInPool(cfg);
    RunKeepsNoStale(cfg, Boot(cfg, r, start), ops);
    var w := Run(cfg, Boot(cfg, r, start), ops);
    if !HasReservation(w.t, mac) {
      ReservedAddressGivenIff(cfg, w, mac);
    }
  }

  // Replies promise the full lease time, the table may hold less.

  datatype Message = Discover | Request | OtherMessage
  datatype Reply = Offer(ip: Addr, promisedUntil: int) | Ack(ip: Addr, promisedUntil: int)

  /** The reply to a DISCOVER or REQUEST; the lease time in it is always the configured one. */
  function Handle(cfg: Config, w: World, msg: Message, mac: string): Option<Reply>
    requires InPool(cfg, w.t.cursor)
  {
    if msg.OtherMessage? || AnswerTo(cfg, w, mac).None? then None
    else
      var ip, until := AnswerTo(cfg, w, mac).value, w.now + cfg.lease;
      Some(if msg.Discover? then Offer(ip, until) else Ack(ip, until))
  }

  /**
   A DISCOVER is answered by an OFFER and a REQUEST by an ACK, with the whole
   lease time, unless the client has neither a reservation nor a running lease
   and every address of the pool is taken; other messages get no answer.
   */
  lemma RepliesIff(cfg: Config, w: World, msg: Message, mac: string)
    requires InPool(cfg, w.t.cursor)
    ensures var reply := Handle(cfg, w, msg, mac);
            && (reply == None <==>
                || msg == OtherMessage
                || (!HasReservation(w.t, mac) && !HasActiveLease(w.t, mac, w.now)
                    && forall a: Addr :: InPool(cfg, a) ==> Taken(w.t, w.now, a)))
            && (reply.Some? ==>
                  && (reply.value.Offer? <==> msg == Discover) && (reply.value.Ack? <==> msg == Request)
                  && AnswerTo(cfg, w, mac) == Some(reply.value.ip)
                  && reply.value.promisedUntil == w.now + cfg.lease)
  {
    ScanFindsFirstFree(cfg, w.t, mac, w.now);
  }

  /**
   The OFFER and the ACK that follows name the same address, whatever happens in
   between, as long as the reservations stand and the offered lease runs
   (sections 3.1 and 4.3.1 of RFC 2131).
   */
  lemma OfferAndAckAgree(cfg: Config, w: World, mac: string, ops: seq<Op>)
    requires InPool(cfg, w.t.cursor) && ReservationsFixed(ops)
    requires Handle(cfg, w, Discover, mac).Some? && !StaleLease(w, mac)
    requires HasActiveLease(Next(cfg, w, Op.Allocate(mac)).t, mac, Run(cfg, Next(cfg, w, Op.Allocate(mac)), ops).now)
    ensures var w' := Run(cfg, Next(cfg, w, Op.Allocate(mac)), ops);
            && Handle(cfg, w', Request, mac).Some?
            && Handle(cfg, w, Discover, mac).value.Offer? && Handle(cfg, w', Request, mac).value.Ack?
            && Handle(cfg, w', Request, mac).value.ip == Handle(cfg, w, Discover, mac).value.ip
  {
    AnswerIsStableIff(cfg, w, mac);
    if !HasReservation(w.t, mac) {
      ReservedAddressGivenIff(cfg, w, mac);
    }
  }
}
