/**
 Every reply promises the full lease time, while the table may hold less. When
 nobody else can be answered a promised address before the promise ends.
 */
module DhcpPromises {
  import opened Common
  import opened Mac
  import opened DhcpPool
  import opened DhcpLeases
  import opened DhcpRuns
  import opened DhcpStability

  /** The table keeps a lease as long as the reply promises exactly when the reply did not repeat an older lease. */
  lemma PromiseIsKeptIff(cfg: Config, w: World, mac: string)
    requires InPool(cfg, w.t.cursor) && Handle(cfg, w, Request, mac).Some?
    ensures var w', r := Next(cfg, w, Op.Allocate(mac)), Handle(cfg, w, Request, mac).value;
            && mac in w'.t.leases && w'.t.leases[mac].ip == r.ip
            && (w'.t.leases[mac].expires >= r.promisedUntil
                <==> HasReservation(w.t, mac) || !HasActiveLease(w.t, mac, w.now)
                     || w.t.leases[mac].expires >= w.now + cfg.lease)
  {
  }

  /** As long as reservations stand, no other client is answered the address before the time. */
  ghost predicate PromiseIsSafe(cfg: Config, w: World, mac: string, a: Addr, until: int)
    requires InPool(cfg, w.t.cursor)
  {
    forall ops: seq<Op>, other: string ::
      ReservationsFixed(ops) && Normalize(other) != Normalize(mac) && Run(cfg, w, ops).now < until ==>
        AnswerTo(cfg, Run(cfg, w, ops), other) != Some(a)
  }

  ghost predicate ReservedForAnother(w: World, mac: string, a: Addr) {
    exists k :: k in w.t.reservations && k != Normalize(mac) && w.t.reservations[k] == a
  }

  /** No other client has a claim on the address by a reservation or a running lease. */
  ghost predicate Unclaimed(w: World, mac: string, a: Addr) {
    && !ReservedForAnother(w, mac, a)
    && forall m :: m in w.t.leases && Normalize(m) != Normalize(mac) && Active(w.t.leases[m], w.now) ==>
        w.t.leases[m].ip != a
  }

  /** No scan can find the address: it is reserved, outside the pool, or under the client's own lease. */
  ghost predicate Hidden(cfg: Config, w: World, mac: string, l: Lease) {
    Reserved(w.t, l.ip) || !InPool(cfg, l.ip) || (Holds(w, mac, l) && Active(l, w.now))
  }

  lemma OthersAnswered(cfg: Config, w: World, mac: string, l: Lease, other: string)
    requires InPool(cfg, w.t.cursor) && Unclaimed(w, mac, l.ip) && Hidden(cfg, w, mac, l)
    requires Normalize(other) != Normalize(mac)
    ensures AnswerTo(cfg, w, other) != Some(l.ip)
  {
    if !HasReservation(w.t, other) && !HasActiveLease(w.t, other, w.now) {
      ScanFindsFirstFree(cfg, w.t, other, w.now);
    }
  }

  lemma NextKeepsUnclaimed(cfg: Config, w: World, op: Op, mac: string, l: Lease)
    requires InPool(cfg, w.t.cursor) && Unclaimed(w, mac, l.ip) && Hidden(cfg, w, mac, l) && !op.SetReservations?
    ensures Unclaimed(Next(cfg, w, op), mac, l.ip)
  {
    if op.Allocate? && Normalize(op.mac) != Normalize(mac) {
      OthersAnswered(cfg, w, mac, l, op.mac);
    }
  }

  lemma {:induction false} RunKeepsUnclaimed(cfg: Config, w: World, ops: seq<Op>, mac: string, l: Lease)
    requires InPool(cfg, w.t.cursor) && Unclaimed(w, mac, l.ip) && Hidden(cfg, w, mac, l) && ReservationsFixed(ops)
    requires Reserved(w.t, l.ip) || !InPool(cfg, l.ip) || Active(l, Run(cfg, w, ops).now)
    ensures Unclaimed(Run(cfg, w, ops), mac, l.ip) && Hidden(cfg, Run(cfg, w, ops), mac, l)
    decreases |ops|
  {
    if ops != [] {
      var w' := Next(cfg, w, ops[0]);
      NextKeepsUnclaimed(cfg, w, ops[0], mac, l);
      TimePasses(cfg, w', ops[1..]);
      if Holds(w, mac, l) && Active(l, w.now) {
        NextKeepsHold(cfg, w, ops[0], mac, l);
      }
      RunKeepsUnclaimed(cfg, w', ops[1..], mac, l);
    }
  }

  /** Right after the reply only the client itself and owners of reservations have a claim. */
  lemma AnswerIsUnclaimed(cfg: Config, w: World, mac: string)
    requires InPool(cfg, w.t.cursor) && Exclusive(w) && AnswerTo(cfg, w, mac).Some?
    requires !ReservedForAnother(w, mac, AnswerTo(cfg, w, mac).value)
    ensures Unclaimed(Next(cfg, w, Op.Allocate(mac)), mac, AnswerTo(cfg, w, mac).value)
  {
    if !HasReservation(w.t, mac) && !HasActiveLease(w.t, mac, w.now) {
      ScanFindsFirstFree(cfg, w.t, mac, w.now);
    }
  }

  // Clients nobody has heard of.

  lemma {:induction false} LongerThanAll(names: set<string>) returns (n: nat)
    ensures forall x :: x in names ==> |x| < n
    decreases |names|
  {
    n := 0;
    if names != {} {
      var x :| x in names;
      n := LongerThanAll(names - {x});
      n := if |x| < n then n else |x| + 1;
    }
  }

  lemma SomeoneNew(w: World, mac: string) returns (other: string)
    ensures !HasReservation(w.t, other) && other !in w.t.leases && Normalize(other) != Normalize(mac)
  {
    var n := LongerThanAll(w.t.leases.Keys + w.t.reservations.Keys + {Normalize(mac)});
    other := seq(n + 1, _ => '0');
    NormalStays(other);
  }

  /** New clients, one after the other, drive the cursor to a free address, and one is answered it. */
  lemma {:induction false} NewClientsReach(cfg: Config, w: World, mac: string, a: Addr, j: nat)
    returns (ops: seq<Op>, other: string)
    requires InPool(cfg, w.t.cursor) && !Taken(w.t, w.now, a)
    requires j < PoolSize(cfg) && Ahead(cfg, w.t.cursor, j) == a
    ensures ReservationsFixed(ops) && Normalize(other) != Normalize(mac)
    ensures Run(cfg, w, ops).now == w.now && AnswerTo(cfg, Run(cfg, w, ops), other) == Some(a)
    decreases j
  {
    other := SomeoneNew(w, mac);
    var k := FirstFree(cfg, w.t, w.now, 0);
    assert k <= j;
    if k == j {
      ops := [];
    } else {
      var w' := Next(cfg, w, Op.Allocate(other));
      CursorPassesGrant(cfg, w, other, k, j);
      var first := other;
      var rest;
      rest, other := NewClientsReach(cfg, w', mac, a, j - k - 1);
      ops := [Op.Allocate(first)] + rest;
      assert ops[1..] == rest;
    }
  }

  /** A new client's grant takes one address and leaves every other one as it was. */
  lemma GrantTakesOne(cfg: Config, w: World, mac: string, a: Addr)
    requires InPool(cfg, w.t.cursor) && !HasReservation(w.t, mac) && mac !in w.t.leases
    requires !Taken(w.t, w.now, a) && AnswerTo(cfg, w, mac) != Some(a)
    ensures var w' := Next(cfg, w, Op.Allocate(mac));
            !Taken(w'.t, w'.now, a)
  {
  }

  lemma PlacesDiffer(cfg: Config, cursor: Addr, k: nat, j: nat)
    requires InPool(cfg, cursor) && k < j < PoolSize(cfg)
    ensures Ahead(cfg, cursor, k) != Ahead(cfg, cursor, j)
  {
    AheadOfAhead(cfg, cursor, k, j - k);
    AheadWalksRing(cfg, Ahead(cfg, cursor, k), j - k);
  }

  lemma CursorMovesPast(cfg: Config, w: World, mac: string, k: nat)
    requires InPool(cfg, w.t.cursor) && !HasReservation(w.t, mac) && mac !in w.t.leases
    requires k == FirstFree(cfg, w.t, w.now, 0) && k < PoolSize(cfg)
    ensures Next(cfg, w, Op.Allocate(mac)).t.cursor == Ahead(cfg, w.t.cursor, k + 1)
    ensures AnswerTo(cfg, w, mac) == Some(Ahead(cfg, w.t.cursor, k))
  {
    AheadWalksRing(cfg, w.t.cursor, k);
  }

  lemma CursorPassesGrant(cfg: Config, w: World, mac: string, k: nat, j: nat)
    requires InPool(cfg, w.t.cursor) && !HasReservation(w.t, mac) && mac !in w.t.leases
    requires k == FirstFree(cfg, w.t, w.now, 0) && k < j < PoolSize(cfg)
    requires !Taken(w.t, w.now, Ahead(cfg, w.t.cursor, j))
    ensures var w' := Next(cfg, w, Op.Allocate(mac));
            && Ahead(cfg, w'.t.cursor, j - k - 1) == Ahead(cfg, w.t.cursor, j)
            && !Taken(w'.t, w'.now, Ahead(cfg, w.t.cursor, j))
  {
    PlacesDiffer(cfg, w.t.cursor, k, j);
    CursorMovesPast(cfg, w, mac, k);
    GrantTakesOne(cfg, w, mac, Ahead(cfg, w.t.cursor, j));
    AheadOfAhead(cfg, w.t.cursor, k + 1, j - k - 1);
  }

  /** A lease that ends before the promise opens the address to others, if the pool has it. */
  lemma ShortLeaseBreaksPromise(cfg: Config, w: World, mac: string, l: Lease, until: int)
    requires InPool(cfg, w.t.cursor) && Exclusive(w) && InPool(cfg, l.ip) && !Reserved(w.t, l.ip)
    requires mac in w.t.leases && w.t.leases[mac] == l && w.now < l.expires < until
    ensures !PromiseIsSafe(cfg, w, mac, l.ip, until)
  {
    var wait := Tick(l.expires - w.now);
    var w' := Next(cfg, w, wait);
    assert !Leased(w'.t, w'.now, l.ip) by {
      if m :| m in w'.t.leases && w'.t.leases[m].ip == l.ip && Active(w'.t.leases[m], w'.now) {
        assert m != mac && Active(w.t.leases[m], w.now);
      }
    }
    var j := AheadCoversPool(cfg, w'.t.cursor, l.ip);
    var rest, other := NewClientsReach(cfg, w', mac, l.ip, j);
    var ops := [wait] + rest;
    assert ops[1..] == rest;
    assert Run(cfg, w, ops) == Run(cfg, w', rest);
  }

  lemma OwnerBreaksPromise(cfg: Config, w: World, mac: string, a: Addr, until: int)
    requires InPool(cfg, w.t.cursor) && ReservedForAnother(w, mac, a) && w.now < until
    ensures !PromiseIsSafe(cfg, w, mac, a, until)
  {
    var owner :| owner in w.t.reservations && owner != Normalize(mac) && w.t.reservations[owner] == a;
    NormalStays(owner);
    assert Run(cfg, w, []) == w;
    assert AnswerTo(cfg, Run(cfg, w, []), owner) == Some(a);
  }

  /**
   The reply repeats an older lease that ends before the promise does, on an
   address that scans hand out.
   */
  ghost predicate RepeatsShortLease(cfg: Config, w: World, mac: string) {
    && !HasReservation(w.t, mac) && HasActiveLease(w.t, mac, w.now)
    && w.t.leases[mac].expires < w.now + cfg.lease && InPool(cfg, w.t.leases[mac].ip)
  }

  lemma PromiseHolds(cfg: Config, w: World, mac: string)
    requires InPool(cfg, w.t.cursor) && Exclusive(w) && Handle(cfg, w, Request, mac).Some?
    requires !ReservedForAnother(w, mac, AnswerTo(cfg, w, mac).value) && !RepeatsShortLease(cfg, w, mac)
    ensures var r := Handle(cfg, w, Request, mac).value;
            PromiseIsSafe(cfg, Next(cfg, w, Op.Allocate(mac)), mac, r.ip, r.promisedUntil)
  {
    var w', r := Next(cfg, w, Op.Allocate(mac)), Handle(cfg, w, Request, mac).value;
    AnswerIsUnclaimed(cfg, w, mac);
    PromiseIsKeptIff(cfg, w, mac);
    var l := w'.t.leases[mac];
    forall ops: seq<Op>, other: string
      | ReservationsFixed(ops) && Normalize(other) != Normalize(mac) && Run(cfg, w', ops).now < r.promisedUntil
      ensures AnswerTo(cfg, Run(cfg, w', ops), other) != Some(r.ip)
    {
      TimePasses(cfg, w', ops);
      if !HasReservation(w.t, mac) {
        AnswerIsHeld(cfg, w, mac);
      }
      RunKeepsUnclaimed(cfg, w', ops, mac, l);
      OthersAnswered(cfg, Run(cfg, w', ops), mac, l, other);
    }
  }

  /**
   In any state with exclusive leases, such as every reachable one, a promise to
   a client is safe exactly when no time is promised at all, or the address is
   not reserved for another client and the reply does not repeat a lease that
   ends before the promise on an address of the pool.
   */
  lemma PromiseIsSafeIff(cfg: Config, w: World, mac: string)
    requires InPool(cfg, w.t.cursor) && Exclusive(w) && Handle(cfg, w, Request, mac).Some?
    ensures var r := Handle(cfg, w, Request, mac).value;
            PromiseIsSafe(cfg, Next(cfg, w, Op.Allocate(mac)), mac, r.ip, r.promisedUntil)
            <==> cfg.lease <= 0 || (!ReservedForAnother(w, mac, r.ip) && !RepeatsShortLease(cfg, w, mac))
  {
    var w', r := Next(cfg, w, Op.Allocate(mac)), Handle(cfg, w, Request, mac).value;
    if cfg.lease <= 0 {
      forall ops: seq<Op>
        ensures w'.now <= Run(cfg, w', ops).now
      {
        TimePasses(cfg, w', ops);
      }
    } else if ReservedForAnother(w, mac, r.ip) {
      assert ReservedForAnother(w', mac, r.ip);
      OwnerBreaksPromise(cfg, w', mac, r.ip, r.promisedUntil);
    } else if RepeatsShortLease(cfg, w, mac) {
      assert !Reserved(w.t, r.ip);
      ShortLeaseBreaksPromise(cfg, w', mac, w'.t.leases[mac], r.promisedUntil);
    } else {
      PromiseHolds(cfg, w, mac);
    }
  }

  /** So it is on every run from start-up. */
  lemma PromisesOnRuns(cfg: Config, reserved: Reservations, start: int, before: seq<Op>, mac: string)
    ensures InPool(cfg, cfg.start)
    ensures var w := Run(cfg, Boot(cfg, reserved, start), before);
            Handle(cfg, w, Request, mac).Some? ==>
              var r := Handle(cfg, w, Request, mac).value;
              (PromiseIsSafe(cfg, Next(cfg, w, Op.Allocate(mac)), mac, r.ip, r.promisedUntil)
               <==> cfg.lease <= 0 || (!ReservedForAnother(w, mac, r.ip) && !RepeatsShortLease(cfg, w, mac)))
  {
    LeasesAreExclusive(cfg, reserved, start, before);
    var w := Run(cfg, Boot(cfg, reserved, start), before);
    if Handle(cfg, w, Request, mac).Some? {
      PromiseIsSafeIff(cfg, w, mac);
    }
  }

  /**
   A run that meets the condition: with one address, a lease time of 10,
   and a client that asks again after 9, the next client is promised the same
   address while the first still relies on it.
   */
  lemma PromisesCanOverlap()
    ensures var cfg := Config(1, 1, 10);
            var w0 := Boot(cfg, map[], 0);
            var w1 := Run(cfg, w0, [Op.Allocate("a"), Tick(9)]);
            var w2 := Run(cfg, w1, [Op.Allocate("a"), Tick(1)]);
            var first, second := Handle(cfg, w1, Request, "a"), Handle(cfg, w2, Request, "b");
            && first.Some? && second.Some? && first.value.ip == second.value.ip
            && w2.now < first.value.promisedUntil
  {
  }
}
