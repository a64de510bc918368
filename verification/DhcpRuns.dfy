/** Theorems about whole runs of a DHCP server: any mix of requests, reaping, new reservations and time. */
module DhcpRuns {
  import opened Common
  import opened Mac
  import opened DhcpPool
  import opened DhcpLeases

  datatype World = World(t: Table, now: int)

  /** The clock only moves forward. */
  datatype Op = Allocate(mac: string) | SetReservations(r: Reservations) | ReapExpired | Tick(dt: nat)

  function Boot(cfg: Config, r: Reservations, now: int): World {
    World(Table(map[], r, cfg.start), now)
  }

  function Next(cfg: Config, w: World, op: Op): (w': World)
    requires InPool(cfg, w.t.cursor)
    ensures InPool(cfg, w'.t.cursor)
    ensures !op.SetReservations? ==> w'.t.reservations == w.t.reservations
  {
    match op
    case Allocate(mac) =>
      AllocateKeepsCursor(cfg, w.t, mac, w.now);
      w.(t := DhcpLeases.Allocate(cfg, w.t, mac, w.now).table)
    case SetReservations(r) => w.(t := w.t.(reservations := r))
    case ReapExpired => w.(t := Reap(w.t, w.now))
    case Tick(dt) => w.(now := w.now + dt)
  }

  function Run(cfg: Config, w: World, ops: seq<Op>): (w': World)
    requires InPool(cfg, w.t.cursor)
    ensures InPool(cfg, w'.t.cursor)
    decreases |ops|
  {
    if ops == [] then w else Run(cfg, Next(cfg, w, ops[0]), ops[1..])
  }

  function AnswerTo(cfg: Config, w: World, mac: string): Option<Addr>
    requires InPool(cfg, w.t.cursor)
  {
    DhcpLeases.Allocate(cfg, w.t, mac, w.now).ip
  }

  /** The addresses answered to the requests of a run, in order. */
  function Answers(cfg: Config, w: World, ops: seq<Op>): seq<Option<Addr>>
    requires InPool(cfg, w.t.cursor)
    decreases |ops|
  {
    if ops == [] then []
    else
      var rest := Answers(cfg, Next(cfg, w, ops[0]), ops[1..]);
      if ops[0].Allocate? then [AnswerTo(cfg, w, ops[0].mac)] + rest else rest
  }

  lemma BootInPool(cfg: Config)
    ensures InPool(cfg, cfg.start)
  {
  }

  // One address, one client.

  /** No two clients hold running leases on the same address. */
  ghost predicate Exclusive(w: World) {
    forall m, n :: m in w.t.leases && n in w.t.leases && m != n
                   && Active(w.t.leases[m], w.now) && Active(w.t.leases[n], w.now) ==>
      w.t.leases[m].ip != w.t.leases[n].ip
  }

  lemma NextKeepsExclusive(cfg: Config, w: World, op: Op)
    requires InPool(cfg, w.t.cursor) && Exclusive(w)
    ensures Exclusive(Next(cfg, w, op))
  {
    if op.Allocate? && !HasReservation(w.t, op.mac) && !HasActiveLease(w.t, op.mac, w.now) {
      var k := FirstFree(cfg, w.t, w.now, 0);
      if k < PoolSize(cfg) {
        assert !Leased(w.t, w.now, Ahead(cfg, w.t.cursor, k));
      }
    }
  }

  lemma {:induction false} RunKeepsExclusive(cfg: Config, w: World, ops: seq<Op>)
    requires InPool(cfg, w.t.cursor) && Exclusive(w)
    ensures Exclusive(Run(cfg, w, ops))
    decreases |ops|
  {
    if ops != [] {
      NextKeepsExclusive(cfg, w, ops[0]);
      RunKeepsExclusive(cfg, Next(cfg, w, ops[0]), ops[1..]);
    }
  }

  /**
   In every reachable state no two clients hold running leases on one address,
   even when reservations change at any time and name the same address twice.
   */
  lemma LeasesAreExclusive(cfg: Config, r: Reservations, start: int, ops: seq<Op>)
    ensures InPool(cfg, cfg.start) && Exclusive(Run(cfg, Boot(cfg, r, start), ops))
  {
    BootInPool(cfg);
    RunKeepsExclusive(cfg, Boot(cfg, r, start), ops);
  }

  // Reaping cannot be observed through the addresses handed out.

  ghost predicate Runs(leases: map<string, Lease>, m: string, now: int) {
    m in leases && Active(leases[m], now)
  }

  /** Two lease maps that differ at most in leases already over. */
  ghost predicate SameRunning(l: map<string, Lease>, l': map<string, Lease>, now: int) {
    forall m :: (Runs(l, m, now) <==> Runs(l', m, now)) && (Runs(l, m, now) ==> l[m] == l'[m])
  }

  ghost predicate Alike(v: World, w: World) {
    && v.now == w.now
    && v.t.reservations == w.t.reservations
    && v.t.cursor == w.t.cursor
    && SameRunning(v.t.leases, w.t.leases, v.now)
  }

  lemma {:induction false} AlikeFirstFree(cfg: Config, v: World, w: World, j: nat)
    requires Alike(v, w) && InPool(cfg, v.t.cursor) && j <= PoolSize(cfg)
    ensures FirstFree(cfg, v.t, v.now, j) == FirstFree(cfg, w.t, w.now, j)
    decreases PoolSize(cfg) - j
  {
  }

  lemma SameAfterUpdate(l: map<string, Lease>, l': map<string, Lease>, now: int, m: string, x: Lease)
    requires SameRunning(l, l', now)
    ensures SameRunning(l[m := x], l'[m := x], now)
  {
  }

  lemma SameWithoutAddress(l: map<string, Lease>, l': map<string, Lease>, now: int, a: Addr)
    requires SameRunning(l, l', now)
    ensures SameRunning(WithoutAddress(l, a), WithoutAddress(l', a), now)
  {
  }

  lemma AlikeScan(cfg: Config, v: World, w: World, mac: string)
    requires Alike(v, w) && InPool(cfg, v.t.cursor)
    ensures var sv, sw := Scan(cfg, v.t, mac, v.now), Scan(cfg, w.t, mac, w.now);
            sv.ip == sw.ip && Alike(v.(t := sv.table), w.(t := sw.table))
  {
    AlikeFirstFree(cfg, v, w, 0);
    var a := Ahead(cfg, v.t.cursor, FirstFree(cfg, v.t, v.now, 0));
    SameAfterUpdate(v.t.leases, w.t.leases, v.now, mac, Lease(a, v.now + cfg.lease));
  }

  lemma AlikeAllocate(cfg: Config, v: World, w: World, mac: string)
    requires Alike(v, w) && InPool(cfg, v.t.cursor)
    ensures AnswerTo(cfg, v, mac) == AnswerTo(cfg, w, mac)
    ensures Alike(Next(cfg, v, Allocate(mac)), Next(cfg, w, Allocate(mac)))
  {
    if HasReservation(v.t, mac) {
      var a := v.t.reservations[Normalize(mac)];
      SameWithoutAddress(v.t.leases, w.t.leases, v.now, a);
      SameAfterUpdate(WithoutAddress(v.t.leases, a), WithoutAddress(w.t.leases, a), v.now, mac,
                      Lease(a, v.now + cfg.lease));
    } else {
      assert Runs(v.t.leases, mac, v.now) <==> HasActiveLease(v.t, mac, v.now);
      assert Runs(w.t.leases, mac, w.now) <==> HasActiveLease(w.t, mac, w.now);
      if !HasActiveLease(v.t, mac, v.now) {
        AlikeScan(cfg, v, w, mac);
      }
    }
  }

  /** Later, fewer leases are running: only the currently running ones matter. */
  lemma SameLater(l: map<string, Lease>, l': map<string, Lease>, now: int, dt: nat)
    requires SameRunning(l, l', now)
    ensures SameRunning(l, l', now + dt)
  {
  }

  lemma AlikeNext(cfg: Config, v: World, w: World, op: Op)
    requires Alike(v, w) && InPool(cfg, v.t.cursor) && !op.ReapExpired?
    ensures Alike(Next(cfg, v, op), Next(cfg, w, op))
  {
    match op
    case Allocate(mac) => AlikeAllocate(cfg, v, w, mac);
    case SetReservations(_) =>
    case Tick(dt) => SameLater(v.t.leases, w.t.leases, v.now, dt);
  }

  lemma ReapIsAlike(v: World, w: World)
    requires Alike(v, w)
    ensures Alike(v.(t := Reap(v.t, v.now)), w)
  {
  }

  function WithoutReaping(ops: seq<Op>): seq<Op> {
    if ops == [] then []
    else if ops[0].ReapExpired? then WithoutReaping(ops[1..])
    else [ops[0]] + WithoutReaping(ops[1..])
  }

  lemma {:induction false} AlikeAnswers(cfg: Config, v: World, w: World, ops: seq<Op>)
    requires Alike(v, w) && InPool(cfg, v.t.cursor)
    ensures Answers(cfg, v, ops) == Answers(cfg, w, WithoutReaping(ops))
    decreases |ops|
  {
    if ops != [] {
      if ops[0].ReapExpired? {
        ReapIsAlike(v, w);
        AlikeAnswers(cfg, Next(cfg, v, ops[0]), w, ops[1..]);
      } else {
        AlikeNext(cfg, v, w, ops[0]);
        if ops[0].Allocate? {
          AlikeAllocate(cfg, v, w, ops[0].mac);
        }
        AlikeAnswers(cfg, Next(cfg, v, ops[0]), Next(cfg, w, ops[0]), ops[1..]);
        assert WithoutReaping(ops)[1..] == WithoutReaping(ops[1..]);
      }
    }
  }

  /**
   Reaping is invisible: two runs that agree except for when and how often the
   reaper ran answer every request alike.
   */
  lemma ReapingIsInvisible(cfg: Config, w: World, ops: seq<Op>, ops': seq<Op>)
    requires InPool(cfg, w.t.cursor) && WithoutReaping(ops) == WithoutReaping(ops')
    ensures Answers(cfg, w, ops) == Answers(cfg, w, ops')
  {
    AlikeAnswers(cfg, w, w, ops);
    AlikeAnswers(cfg, w, w, ops');
  }
}
