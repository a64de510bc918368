/**
 The addresses a DHCP server hands out, as the ring its cursor walks. The
 server checks neither the order nor the end of its range; the ring below is
 what the scan visits in every case.
 */
module DhcpPool {
  import opened Ipv4

  type Addr = a: int | 0 <= a < SPACE

  /** The configured range, both ends as given, and the lease time. */
  datatype Config = Config(start: Addr, end: Addr, lease: int)

  /** The cursor's step: +1 with wrap-around at the top, back to the start when past the end. */
  function StepFrom(cfg: Config, a: Addr): Addr {
    var next := if a + 1 == SPACE then 0 else a + 1;
    if next > cfg.end then cfg.start else next
  }

  /** How many addresses the cursor visits before it is back at the start. */
  function PoolSize(cfg: Config): (n: nat)
    ensures 1 <= n <= SPACE
  {
    if cfg.end == SPACE - 1 then SPACE
    else if cfg.start <= cfg.end then cfg.end - cfg.start + 1
    else if cfg.start < SPACE - 1 then 1
    else cfg.end + 2
  }

  /** The k-th address of the ring. */
  function Slot(cfg: Config, k: nat): Addr
    requires k < SPACE
  {
    if cfg.start + k < SPACE then cfg.start + k else cfg.start + k - SPACE
  }

  /** Position of an address, counting from the start. */
  function SlotOf(cfg: Config, a: Addr): (k: nat)
    ensures k < SPACE
  {
    if a >= cfg.start then a - cfg.start else a - cfg.start + SPACE
  }

  predicate InPool(cfg: Config, a: Addr) {
    SlotOf(cfg, a) < PoolSize(cfg)
  }

  /** Slots number the pool one to one. */
  lemma SlotsAreOneToOne(cfg: Config, k: nat, a: Addr)
    requires k < SPACE
    ensures SlotOf(cfg, Slot(cfg, k)) == k
    ensures Slot(cfg, SlotOf(cfg, a)) == a
  {
  }

  /** Whatever the range, the cursor walks the pool as a ring and never leaves it. */
  lemma StepWalksRing(cfg: Config, a: Addr)
    requires InPool(cfg, a)
    ensures InPool(cfg, StepFrom(cfg, a))
    ensures SlotOf(cfg, StepFrom(cfg, a)) == (if SlotOf(cfg, a) + 1 == PoolSize(cfg) then 0 else SlotOf(cfg, a) + 1)
  {
  }

  /**
   The pool is the configured range exactly when the range is in order and ends
   below 255.255.255.255 (or is the whole address space); otherwise addresses
   outside the range are handed out.
   */
  lemma PoolIsRangeIff(cfg: Config)
    ensures (forall a: Addr :: InPool(cfg, a) <==> cfg.start <= a <= cfg.end)
            <==> cfg.start <= cfg.end < SPACE - 1 || (cfg.start == 0 && cfg.end == SPACE - 1)
  {
    assert InPool(cfg, cfg.start);
    if cfg.start <= cfg.end == SPACE - 1 && cfg.start > 0 {
      assert InPool(cfg, 0);
    }
  }
}
