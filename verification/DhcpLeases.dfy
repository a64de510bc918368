/**
 The lease table as a value, and what each call does to it. `DhcpServer` proves
 that the server's loops compute these functions; the theorems about whole runs
 are in `DhcpRuns`.
 */
module DhcpLeases {
  import opened Common
  import opened Mac
  import opened DhcpPool

  datatype Lease = Lease(ip: Addr, expires: int)

  /** SetReservations normalises every key. */
  type Reservations = r: map<string, Addr> | forall m :: m in r ==> IsNormal(m)

  /** Leases are kept under the hardware address as received, reservations under its normal form. */
  datatype Table = Table(leases: map<string, Lease>, reservations: Reservations, cursor: Addr)

  datatype Outcome = Outcome(table: Table, ip: Option<Addr>)

  predicate Active(l: Lease, now: int) {
    now < l.expires
  }

  predicate Reserved(t: Table, a: Addr) {
    exists m :: m in t.reservations && t.reservations[m] == a
  }

  predicate Leased(t: Table, now: int, a: Addr) {
    exists m :: m in t.leases && t.leases[m].ip == a && Active(t.leases[m], now)
  }

  predicate Taken(t: Table, now: int, a: Addr) {
    Reserved(t, a) || Leased(t, now, a)
  }

  /** The address j places ahead of the cursor on the ring. */
  function Ahead(cfg: Config, cursor: Addr, j: nat): (a: Addr)
    requires InPool(cfg, cursor) && j <= PoolSize(cfg)
  {
    var k := SlotOf(cfg, cursor) + j;
    Slot(cfg, if k < PoolSize(cfg) then k else k - PoolSize(cfg))
  }

  /** How many taken addresses the scan passes, from the j-th on; the pool size if all are taken. */
  function FirstFree(cfg: Config, t: Table, now: int, j: nat): (k: nat)
    requires InPool(cfg, t.cursor) && j <= PoolSize(cfg)
    ensures j <= k <= PoolSize(cfg)
    ensures forall i :: j <= i < k ==> Taken(t, now, Ahead(cfg, t.cursor, i))
    ensures k < PoolSize(cfg) ==> !Taken(t, now, Ahead(cfg, t.cursor, k))
    decreases PoolSize(cfg) - j
  {
    if j == PoolSize(cfg) || !Taken(t, now, Ahead(cfg, t.cursor, j)) then j else FirstFree(cfg, t, now, j + 1)
  }

  function WithoutAddress(leases: map<string, Lease>, a: Addr): map<string, Lease> {
    map m | m in leases && leases[m].ip != a :: leases[m]
  }

  predicate HasReservation(t: Table, mac: string) {
    Normalize(mac) in t.reservations
  }

  predicate HasActiveLease(t: Table, mac: string, now: int) {
    mac in t.leases && Active(t.leases[mac], now)
  }

  function Grant(t: Table, mac: string, a: Addr, until: int, cursor: Addr): Table {
    Table(t.leases[mac := Lease(a, until)], t.reservations, cursor)
  }

  /** A new address for a client without reservation or running lease. */
  function Scan(cfg: Config, t: Table, mac: string, now: int): Outcome
    requires InPool(cfg, t.cursor)
  {
    var k := FirstFree(cfg, t, now, 0);
    if k == PoolSize(cfg) then Outcome(t, None)
    else
      var a := Ahead(cfg, t.cursor, k);
      Outcome(Grant(t, mac, a, now + cfg.lease, StepFrom(cfg, a)), Some(a))
  }

  /** The address is taken from whoever holds it. */
  function Reclaim(t: Table, mac: string, a: Addr, until: int): Table {
    t.(leases := WithoutAddress(t.leases, a)[mac := Lease(a, until)])
  }

  function Allocate(cfg: Config, t: Table, mac: string, now: int): Outcome
    requires InPool(cfg, t.cursor)
  {
    if HasReservation(t, mac) then
      var a := t.reservations[Normalize(mac)];
      Outcome(Reclaim(t, mac, a, now + cfg.lease), Some(a))
    else if HasActiveLease(t, mac, now) then Outcome(t, Some(t.leases[mac].ip))
    else Scan(cfg, t, mac, now)
  }

  /** Drops leases whose end has passed; at the very instant of expiry a lease is neither active nor reaped. */
  function Reap(t: Table, now: int): Table {
    t.(leases := map m | m in t.leases && !(now > t.leases[m].expires) :: t.leases[m])
  }

  /** The reaper takes just the leases whose end lies in the past. */
  lemma ReapKeepsUntilEnd(t: Table, now: int, m: string)
    ensures m in Reap(t, now).leases <==> m in t.leases && now <= t.leases[m].expires
    ensures m in Reap(t, now).leases ==> Reap(t, now).leases[m] == t.leases[m]
    ensures Reap(t, now).reservations == t.reservations && Reap(t, now).cursor == t.cursor
  {
  }

  lemma AheadWalksRing(cfg: Config, cursor: Addr, j: nat)
    requires InPool(cfg, cursor) && j < PoolSize(cfg)
    ensures Ahead(cfg, cursor, 0) == cursor == Ahead(cfg, cursor, PoolSize(cfg))
    ensures InPool(cfg, Ahead(cfg, cursor, j))
    ensures StepFrom(cfg, Ahead(cfg, cursor, j)) == Ahead(cfg, cursor, j + 1)
    ensures j > 0 ==> Ahead(cfg, cursor, j) != cursor
  {
  }

  /** Every address of the pool lies ahead of the cursor, at a distance below the pool size. */
  lemma AheadCoversPool(cfg: Config, cursor: Addr, a: Addr) returns (j: nat)
    requires InPool(cfg, cursor) && InPool(cfg, a)
    ensures j < PoolSize(cfg) && Ahead(cfg, cursor, j) == a
  {
    var from, at := SlotOf(cfg, cursor), SlotOf(cfg, a);
    SlotsAreOneToOne(cfg, at, a);
    j := if from <= at then at - from else at + PoolSize(cfg) - from;
  }

  /** Distances add up. */
  lemma AheadOfAhead(cfg: Config, a: Addr, i: nat, j: nat)
    requires InPool(cfg, a) && i + j <= PoolSize(cfg)
    ensures InPool(cfg, Ahead(cfg, a, i)) && Ahead(cfg, Ahead(cfg, a, i), j) == Ahead(cfg, a, i + j)
  {
  }

  /**
   The scan hands out the first free address in ring order from the cursor, and
   fails exactly when every address of the pool is taken.
   */
  lemma ScanFindsFirstFree(cfg: Config, t: Table, mac: string, now: int)
    requires InPool(cfg, t.cursor)
    ensures var r := Scan(cfg, t, mac, now);
            && (r.ip.None? <==> forall a: Addr :: InPool(cfg, a) ==> Taken(t, now, a))
            && (r.ip.None? ==> r.table == t)
            && (r.ip.Some? ==>
                  && InPool(cfg, r.ip.value) && !Taken(t, now, r.ip.value)
                  && r.table.cursor == StepFrom(cfg, r.ip.value)
                  && exists k :: 0 <= k < PoolSize(cfg) && r.ip.value == Ahead(cfg, t.cursor, k)
                       && forall i :: 0 <= i < k ==> Taken(t, now, Ahead(cfg, t.cursor, i)))
  {
    var k := FirstFree(cfg, t, now, 0);
    if k < PoolSize(cfg) {
      AheadWalksRing(cfg, t.cursor, k);
    } else {
      forall a: Addr | InPool(cfg, a)
        ensures Taken(t, now, a)
      {
        var j := AheadCoversPool(cfg, t.cursor, a);
      }
    }
  }

  /** The cursor never leaves the pool. */
  lemma AllocateKeepsCursor(cfg: Config, t: Table, mac: string, now: int)
    requires InPool(cfg, t.cursor)
    ensures InPool(cfg, Allocate(cfg, t, mac, now).table.cursor)
  {
  }
}
