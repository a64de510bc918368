/** Round-robin: how the cursor spreads addresses over whole runs. */
module DhcpFairness {
  import opened Common
  import opened DhcpPool
  import opened DhcpLeases
  import opened DhcpRuns

  /** A request that reaches the scan: no reservation and no running lease. */
  predicate Scans(w: World, op: Op) {
    op.Allocate? && !HasReservation(w.t, op.mac) && !HasActiveLease(w.t, op.mac, w.now)
  }

  /** The address a scan grants, if this request is answered by a scan at all. */
  function Granted(cfg: Config, w: World, op: Op): Option<Addr>
    requires InPool(cfg, w.t.cursor)
  {
    if Scans(w, op) then AnswerTo(cfg, w, op.mac) else None
  }

  /** The scan answering this request probed b: it granted b or found it taken. */
  ghost predicate Met(cfg: Config, w: World, op: Op, b: Addr)
    requires InPool(cfg, w.t.cursor)
  {
    && Scans(w, op)
    && exists i :: 0 <= i < PoolSize(cfg) && i <= FirstFree(cfg, w.t, w.now, 0) && b == Ahead(cfg, w.t.cursor, i)
  }

  lemma MetIsGrantedOrTaken(cfg: Config, w: World, op: Op, b: Addr)
    requires InPool(cfg, w.t.cursor) && Met(cfg, w, op, b)
    ensures Granted(cfg, w, op) == Some(b) || Reserved(w.t, b) || Leased(w.t, w.now, b)
  {
  }

  /** Some request of the run met b. */
  ghost predicate MetDuring(cfg: Config, w: World, ops: seq<Op>, b: Addr)
    requires InPool(cfg, w.t.cursor)
    decreases |ops|
  {
    ops != [] && (Met(cfg, w, ops[0], b) || MetDuring(cfg, Next(cfg, w, ops[0]), ops[1..], b))
  }

  /** A granting scan moves the cursor just past everything it met; other steps leave it. */
  lemma CursorMoves(cfg: Config, w: World, op: Op) returns (k: nat)
    requires InPool(cfg, w.t.cursor)
    ensures k <= PoolSize(cfg)
    ensures Next(cfg, w, op).t.cursor == Ahead(cfg, w.t.cursor, k)
    ensures forall i :: 0 <= i < k ==> Met(cfg, w, op, Ahead(cfg, w.t.cursor, i))
    ensures Granted(cfg, w, op).Some? ==>
              k >= 1 && Granted(cfg, w, op).value == Ahead(cfg, w.t.cursor, k - 1)
              && StepFrom(cfg, Granted(cfg, w, op).value) == Ahead(cfg, w.t.cursor, k)
  {
    k := 0;
    AheadWalksRing(cfg, w.t.cursor, 0);
    if Granted(cfg, w, op).Some? {
      k := FirstFree(cfg, w.t, w.now, 0) + 1;
      AheadWalksRing(cfg, w.t.cursor, k - 1);
    }
  }

  /** What the first request met, counted from `from`. */
  lemma FirstStepSweeps(cfg: Config, from: Addr, d: nat, w: World, ops: seq<Op>, k: nat, j: nat)
    requires InPool(cfg, w.t.cursor) && InPool(cfg, from) && d <= j < PoolSize(cfg) && j < d + k
    requires w.t.cursor == Ahead(cfg, from, d) && ops != []
    requires k <= PoolSize(cfg) && forall i :: 0 <= i < k ==> Met(cfg, w, ops[0], Ahead(cfg, w.t.cursor, i))
    ensures MetDuring(cfg, w, ops, Ahead(cfg, from, j))
  {
    AheadOfAhead(cfg, from, d, j - d);
    assert Met(cfg, w, ops[0], Ahead(cfg, w.t.cursor, j - d));
  }

  /** The distance the cursor has travelled since `from`, at most one lap, is swept. */
  lemma {:induction false} RunSweeps(cfg: Config, from: Addr, d: nat, w: World, ops: seq<Op>) returns (d': nat)
    requires InPool(cfg, w.t.cursor) && InPool(cfg, from) && d < PoolSize(cfg) && w.t.cursor == Ahead(cfg, from, d)
    ensures d <= d' <= PoolSize(cfg)
    ensures forall j :: d <= j < d' ==> MetDuring(cfg, w, ops, Ahead(cfg, from, j))
    ensures d' < PoolSize(cfg) ==> Run(cfg, w, ops).t.cursor == Ahead(cfg, from, d')
    decreases |ops|
  {
    if ops == [] {
      d' := d;
    } else {
      var k := CursorMoves(cfg, w, ops[0]);
      forall j | d <= j < PoolSize(cfg) && j < d + k
        ensures MetDuring(cfg, w, ops, Ahead(cfg, from, j))
      {
        FirstStepSweeps(cfg, from, d, w, ops, k, j);
      }
      if d + k >= PoolSize(cfg) {
        d' := PoolSize(cfg);
      } else {
        AheadOfAhead(cfg, from, d, k);
        d' := RunSweeps(cfg, from, d + k, Next(cfg, w, ops[0]), ops[1..]);
      }
    }
  }

  /** Coming back to where one started takes a whole lap. */
  lemma ReturnTakesLap(cfg: Config, from: Addr, d: nat, k: nat)
    requires InPool(cfg, from) && d < PoolSize(cfg) && 1 <= k <= PoolSize(cfg)
    requires InPool(cfg, Ahead(cfg, from, d)) && Ahead(cfg, Ahead(cfg, from, d), k) == from
    ensures d + k >= PoolSize(cfg)
  {
  }

  lemma {:induction false} RunAppend(cfg: Config, w: World, ops: seq<Op>, op: Op)
    requires InPool(cfg, w.t.cursor)
    ensures Run(cfg, w, ops + [op]) == Next(cfg, Run(cfg, w, ops), op)
    ensures forall b :: MetDuring(cfg, w, ops, b) || Met(cfg, Run(cfg, w, ops), op, b) ==>
            MetDuring(cfg, w, ops + [op], b)
    decreases |ops|
  {
    if ops == [] {
      assert ([] + [op])[1..] == [];
    } else {
      assert (ops + [op])[0] == ops[0] && (ops + [op])[1..] == ops[1..] + [op];
      RunAppend(cfg, Next(cfg, w, ops[0]), ops[1..], op);
    }
  }

  /**
   Between two grants of the same address by scans, with any requests, failures,
   reservation changes, reaping and time in between, a scan granted or found
   taken every address of the pool.
   */
  lemma {:induction false} EveryAddressHasItsTurn(
    cfg: Config, w: World, first: Op, between: seq<Op>, second: Op, b: Addr)
    requires InPool(cfg, w.t.cursor) && InPool(cfg, b)
    requires Granted(cfg, w, first).Some?
    requires var w' := Run(cfg, Next(cfg, w, first), between);
             Granted(cfg, w', second) == Granted(cfg, w, first)
    ensures MetDuring(cfg, Next(cfg, w, first), between + [second], b)
  {
    var w1 := Next(cfg, w, first);
    var from, w2 := w1.t.cursor, Run(cfg, w1, between);
    AheadWalksRing(cfg, from, 0);
    var d := RunSweeps(cfg, from, 0, w1, between);
    var j := AheadCoversPool(cfg, from, b);
    RunAppend(cfg, w1, between, second);
    if j >= d {
      assert StepFrom(cfg, Granted(cfg, w, first).value) == from by { var _ := CursorMoves(cfg, w, first); }
      var k := CursorMoves(cfg, w2, second);
      ReturnTakesLap(cfg, from, d, k);
      AheadOfAhead(cfg, from, d, j - d);
      assert Met(cfg, w2, second, b);
    }
  }
}
