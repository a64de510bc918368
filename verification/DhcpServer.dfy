/**
 The lease server itself: maps of byte-slice addresses, updated in place. Every
 method is proved to compute what `DhcpLeases` says about the abstract table.
 Each call reads the clock once.
 */
module DhcpServer {
  import opened Common
  import opened DhcpBoot
  import opened Ipv4
  import opened Mac
  import opened MacMaps
  import opened DhcpPool
  import Spec = DhcpLeases

  datatype LeaseEntry = LeaseEntry(ip: IP, expires: int)

  ghost function AbsLeases(leases: map<string, LeaseEntry>): map<string, Spec.Lease> {
    map m | m in leases :: Spec.Lease(Value(leases[m].ip), leases[m].expires)
  }

  ghost function AbsReservations(reservations: map<string, IP>): map<string, Addr> {
    map m | m in reservations :: Value(reservations[m])
  }

  ghost function WithoutIP(leases: map<string, LeaseEntry>, ip: IP): map<string, LeaseEntry> {
    map m | m in leases && leases[m].ip != ip :: leases[m]
  }

  ghost function WithoutExpired(leases: map<string, LeaseEntry>, now: int): map<string, LeaseEntry> {
    map m | m in leases && !(now > leases[m].expires) :: leases[m]
  }

  lemma AbsWithoutIP(leases: map<string, LeaseEntry>, ip: IP)
    ensures AbsLeases(WithoutIP(leases, ip)) == Spec.WithoutAddress(AbsLeases(leases), Value(ip))
  {
    forall m | m in leases && Value(leases[m].ip) == Value(ip)
      ensures leases[m].ip == ip
    {
      ValueInjective(leases[m].ip, ip);
    }
  }

  lemma AbsUpdate(leases: map<string, LeaseEntry>, mac: string, ip: IP, expires: int)
    ensures AbsLeases(leases[mac := LeaseEntry(ip, expires)]) ==
            AbsLeases(leases)[mac := Spec.Lease(Value(ip), expires)]
  {
  }

  lemma AbsWithoutExpired(t: Spec.Table, leases: map<string, LeaseEntry>, now: int)
    requires t.leases == AbsLeases(leases)
    ensures AbsLeases(WithoutExpired(leases, now)) == Spec.Reap(t, now).leases
  {
  }

  lemma ReservedAllocation(cfg: Config, t: Spec.Table, mac: string, now: int, a: Addr, until: int)
    requires InPool(cfg, t.cursor) && Spec.HasReservation(t, mac) && a == t.reservations[Normalize(mac)]
    requires until == now + cfg.lease
    ensures Spec.Allocate(cfg, t, mac, now) ==
            Spec.Outcome(Spec.Reclaim(t, mac, a, until), Some(a))
  {
  }

  lemma RenewedAllocation(cfg: Config, t: Spec.Table, mac: string, now: int)
    requires InPool(cfg, t.cursor) && !Spec.HasReservation(t, mac) && Spec.HasActiveLease(t, mac, now)
    ensures Spec.Allocate(cfg, t, mac, now) == Spec.Outcome(t, Some(t.leases[mac].ip))
  {
  }

  lemma ScannedAllocation(cfg: Config, t: Spec.Table, mac: string, now: int, a: Addr, until: int)
    requires InPool(cfg, t.cursor) && !Spec.HasReservation(t, mac) && !Spec.HasActiveLease(t, mac, now)
    requires var k := Spec.FirstFree(cfg, t, now, 0);
             k < PoolSize(cfg) && a == Spec.Ahead(cfg, t.cursor, k)
    requires until == now + cfg.lease
    ensures Spec.Allocate(cfg, t, mac, now) ==
            Spec.Outcome(Spec.Grant(t, mac, a, until, StepFrom(cfg, a)), Some(a))
  {
  }

  lemma FailedAllocation(cfg: Config, t: Spec.Table, mac: string, now: int)
    requires InPool(cfg, t.cursor) && !Spec.HasReservation(t, mac) && !Spec.HasActiveLease(t, mac, now)
    requires Spec.FirstFree(cfg, t, now, 0) == PoolSize(cfg)
    ensures Spec.Allocate(cfg, t, mac, now) == Spec.Outcome(t, None)
  {
  }

  class Server {
    const serverIP: IP
    /** Number of addresses in the server's subnet: 2 to the power of its host bits. */
    const subnetSize: nat
    const rangeStart: IP
    const rangeEnd: IP
    const lease: int
    var leases: map<string, LeaseEntry>
    var nextIP: IP
    var reservations: map<string, IP>
    var boot: Boot

    ghost function Cfg(): Config {
      Config(Value(rangeStart), Value(rangeEnd), lease)
    }

    ghost predicate Valid()
      reads this
    {
      && subnetSize > 0
      && InPool(Cfg(), Value(nextIP))
      && forall m :: m in reservations ==> IsNormal(m)
    }

    /** The table these fields stand for. */
    ghost function Abs(): Spec.Table
      requires Valid()
      reads this
    {
      Spec.Table(AbsLeases(leases), AbsReservations(reservations), Value(nextIP))
    }

    constructor (serverIP: IP, subnetSize: nat, rangeStart: IP, rangeEnd: IP, lease: int)
      requires subnetSize > 0
      ensures Valid() && Abs() == Spec.Table(map[], map[], Value(rangeStart)) && boot == NO_BOOT
      ensures Cfg() == Config(Value(rangeStart), Value(rangeEnd), lease)
      ensures this.serverIP == serverIP && this.subnetSize == subnetSize
    {
      this.serverIP, this.subnetSize, this.rangeStart, this.rangeEnd := serverIP, subnetSize, rangeStart, rangeEnd;
      this.lease, leases, reservations, nextIP, boot := lease, map[], map[], rangeStart, NO_BOOT;
    }

    predicate InSubnet(ip: IP)
      requires subnetSize > 0
    {
      Value(ip) / subnetSize == Value(serverIP) / subnetSize
    }

    predicate Admitted(request: Option<IP>)
      requires subnetSize > 0
    {
      request.Some? && InSubnet(request.value)
    }

    /** The requested reservations that parse and lie in this subnet. */
    function AdmittedOf(requests: map<string, Option<IP>>): map<string, IP>
      requires subnetSize > 0
    {
      map mac | mac in requests && Admitted(requests[mac]) :: requests[mac].value
    }

    /** Replaces the reservations by the admitted ones, under normalised keys. */
    method SetReservations(requests: map<string, Option<IP>>)
      requires Valid()
      modifies this`reservations
      ensures Valid() && Abs().leases == old(Abs().leases) && Abs().cursor == old(Abs().cursor)
      ensures Overlay(map[], AdmittedOf(requests), reservations)
    {
      var out: map<string, IP> := map[];
      var todo := requests.Keys;
      ghost var admitted := AdmittedOf(requests);
      AllKeys(map[], admitted, out);
      while todo != {}
        invariant todo <= requests.Keys && Overlay(map[], admitted - todo, out)
        decreases |todo|
      {
        var mac :| mac in todo;
        NextKey(map[], admitted, todo, mac, out);
        todo := todo - {mac};
        if Admitted(requests[mac]) {
          out := out[Normalize(mac) := requests[mac].value];
        }
      }
      AllKeys(map[], admitted, out);
      KeysAreNormal(admitted, out);
      reservations := out;
    }

    method SetPXEOptions(bootServer: Option<IP>, bootFile: string)
      modifies this`boot
      ensures boot == old(boot).(server := bootServer, file := bootFile)
    {
      boot := boot.(server := bootServer, file := bootFile);
    }

    method SetBootFiles(legacy: string, uefi: string, ipxe: string)
      modifies this`boot
      ensures boot == old(boot).(legacy := legacy, uefi := uefi, ipxe := ipxe)
    {
      boot := boot.(legacy := legacy, uefi := uefi, ipxe := ipxe);
    }

    /** Replaces the boot files per client, under normalised keys. */
    method SetMacPXEBootFiles(files: map<string, string>)
      modifies this`boot
      ensures boot == old(boot).(macFiles := boot.macFiles) && Overlay(map[], files, boot.macFiles)
    {
      var out := map[];
      var todo := files.Keys;
      AllKeys(map[], files, out);
      while todo != {}
        invariant boot == old(boot) && todo <= files.Keys && Overlay(map[], files - todo, out)
        decreases todo
      {
        var mac :| mac in todo;
        NextKey(map[], files, todo, mac, out);
        todo, out := todo - {mac}, out[Normalize(mac) := files[mac]];
      }
      AllKeys(map[], files, out);
      boot := boot.(macFiles := out);
    }

    method IsLeasedOrReserved(ip: IP, now: int) returns (taken: bool)
      requires Valid()
      ensures taken == Spec.Taken(Abs(), now, Value(ip))
    {
      var todo := reservations.Keys;
      while todo != {}
        invariant todo <= reservations.Keys
        invariant forall m :: m in reservations.Keys - todo ==> reservations[m] != ip
        decreases |todo|
      {
        var m :| m in todo;
        todo := todo - {m};
        if reservations[m] == ip {
          assert m in Abs().reservations && Abs().reservations[m] == Value(ip);
          return true;
        }
      }
      todo := leases.Keys;
      while todo != {}
        invariant todo <= leases.Keys
        invariant forall m :: m in leases.Keys - todo ==> !(leases[m].ip == ip && now < leases[m].expires)
        decreases |todo|
      {
        var m :| m in todo;
        todo := todo - {m};
        if leases[m].ip == ip && now < leases[m].expires {
          assert m in Abs().leases && Abs().leases[m].ip == Value(ip);
          return true;
        }
      }
      NotTaken(ip, now);
      return false;
    }

    lemma NotTaken(ip: IP, now: int)
      requires Valid()
      requires forall m :: m in reservations ==> reservations[m] != ip
      requires forall m :: m in leases ==> !(leases[m].ip == ip && now < leases[m].expires)
      ensures !Spec.Taken(Abs(), now, Value(ip))
    {
      forall m | m in Abs().reservations
        ensures Abs().reservations[m] != Value(ip)
      {
        if Value(reservations[m]) == Value(ip) { ValueInjective(reservations[m], ip); }
      }
      forall m | m in Abs().leases
        ensures !(Abs().leases[m].ip == Value(ip) && Spec.Active(Abs().leases[m], now))
      {
        if Value(leases[m].ip) == Value(ip) { ValueInjective(leases[m].ip, ip); }
      }
    }

    method ClearLeasesForIP(ip: IP)
      modifies this`leases
      ensures leases == WithoutIP(old(leases), ip)
    {
      var todo := leases.Keys;
      while todo != {}
        invariant todo <= leases.Keys
        invariant forall m :: m in leases ==>
                m in old(leases) && leases[m] == old(leases)[m] && (m in todo || leases[m].ip != ip)
        invariant forall m :: m in old(leases) && m !in leases ==> old(leases)[m].ip == ip
        decreases |todo|
      {
        var m :| m in todo;
        todo := todo - {m};
        if leases[m].ip == ip {
          leases := leases - {m};
        }
      }
    }

    /** First pass of the reaper: which clients' leases are over, and the leases to report. */
    method CollectExpired(now: int) returns (macs: seq<string>, expired: seq<LeaseEntry>)
      ensures |macs| == |expired|
      ensures forall k :: 0 <= k < |macs| ==> macs[k] in leases && expired[k] == leases[macs[k]]
      ensures forall k, l :: 0 <= k < l < |macs| ==> macs[k] != macs[l]
      ensures forall m :: m in macs <==> m in leases && now > leases[m].expires
    {
      macs, expired := [], [];
      var todo := leases.Keys;
      while todo != {}
        invariant todo <= leases.Keys && |macs| == |expired|
        invariant forall k :: 0 <= k < |macs| ==> macs[k] in leases && expired[k] == leases[macs[k]]
        invariant forall k, l :: 0 <= k < l < |macs| ==> macs[k] != macs[l]
        invariant forall m :: m in macs <==> m in leases.Keys - todo && now > leases[m].expires
        decreases |todo|
      {
        var m :| m in todo;
        todo := todo - {m};
        if now > leases[m].expires {
          macs, expired := macs + [m], expired + [leases[m]];
        }
      }
    }

    /** One round of the reaper: what is over is reported once and deleted. */
    method ReapExpiredLeases(now: int) returns (macs: seq<string>, expired: seq<LeaseEntry>)
      requires Valid()
      modifies this`leases
      ensures Valid() && Abs() == Spec.Reap(old(Abs()), now)
      ensures |macs| == |expired|
      ensures forall k :: 0 <= k < |macs| ==> macs[k] in old(leases) && expired[k] == old(leases)[macs[k]]
      ensures forall k, l :: 0 <= k < l < |macs| ==> macs[k] != macs[l]
      ensures forall m :: m in macs <==> m in old(leases) && now > old(leases)[m].expires
    {
      macs, expired := CollectExpired(now);
      DeleteLeases(macs);
      assert leases == WithoutExpired(old(leases), now);
      AbsWithoutExpired(old(Abs()), old(leases), now);
    }

    /** Second pass: deletes one entry after the other. */
    method DeleteLeases(macs: seq<string>)
      modifies this`leases
      ensures leases == map m | m in old(leases) && m !in macs :: old(leases)[m]
    {
      for k := 0 to |macs|
        invariant forall m :: m in leases <==> m in old(leases) && m !in macs[..k]
        invariant forall m :: m in leases ==> leases[m] == old(leases)[m]
      {
        leases := leases - {macs[k]};
      }
    }

    /** A reserved address: taken from whoever holds it, then leased to its owner. */
    method GrantReserved(mac: string, reserved: IP, now: int)
      requires Valid()
      modifies this`leases
      ensures Valid()
      ensures Abs() == Spec.Reclaim(old(Abs()), mac, Value(reserved), now + lease)
    {
      ClearLeasesForIP(reserved);
      AbsWithoutIP(old(leases), reserved);
      ghost var others := Spec.WithoutAddress(AbsLeases(old(leases)), Value(reserved));
      assert AbsLeases(leases) == others;
      Record(mac, reserved, now);
    }

    /** Enters a lease that runs from now on for the configured time. */
    method Record(mac: string, ip: IP, now: int)
      modifies this`leases
      ensures AbsLeases(leases) == AbsLeases(old(leases))[mac := Spec.Lease(Value(ip), now + lease)]
    {
      ghost var before := leases;
      leases := leases[mac := LeaseEntry(ip, now + lease)];
      ghost var after := leases;
      AbsUpdate(before, mac, ip, now + lease);
      assert after == before[mac := LeaseEntry(ip, now + lease)];
    }

    method Allocate(mac: string, now: int) returns (ip: Option<IP>)
      requires Valid()
      modifies this`leases, this`nextIP
      ensures Valid()
      ensures Abs() == Spec.Allocate(Cfg(), old(Abs()), mac, now).table
      ensures (if ip.Some? then Some(Value(ip.value)) else None) == Spec.Allocate(Cfg(), old(Abs()), mac, now).ip
    {
      ghost var before := Abs();
      var normalized := Normalize(mac);
      assert Spec.HasReservation(before, mac) <==> normalized in reservations;
      assert Spec.HasActiveLease(before, mac, now) <==> mac in leases && now < leases[mac].expires;
      if normalized in reservations {
        var reserved := reservations[normalized];
        GrantReserved(mac, reserved, now);
        ghost var a, until := Value(reserved), now + lease;
        assert Abs() == Spec.Reclaim(before, mac, a, until);
        ReservedAllocation(Cfg(), before, mac, now, a, until);
        return Some(reserved);
      }
      if mac in leases && now < leases[mac].expires {
        RenewedAllocation(Cfg(), before, mac, now);
        return Some(leases[mac].ip);
      }
      ip := GrantScanned(mac, now);
    }

    /** The rest of `allocate`, for a client with neither a reservation nor a running lease. */
    method GrantScanned(mac: string, now: int) returns (ip: Option<IP>)
      requires Valid() && !Spec.HasReservation(Abs(), mac) && !Spec.HasActiveLease(Abs(), mac, now)
      modifies this`leases, this`nextIP
      ensures Valid()
      ensures Abs() == Spec.Allocate(Cfg(), old(Abs()), mac, now).table
      ensures (if ip.Some? then Some(Value(ip.value)) else None) == Spec.Allocate(Cfg(), old(Abs()), mac, now).ip
    {
      ghost var before := Abs();
      ghost var k;
      ip, k := FindFree(now);
      if ip.Some? {
        ScannedAllocation(Cfg(), before, mac, now, Value(ip.value), now + lease);
        Grant(mac, ip.value, now, k);
      } else {
        FailedAllocation(Cfg(), before, mac, now);
      }
    }

    /** The scan of `allocate`, from the cursor on and once around the pool. */
    method FindFree(now: int) returns (found: Option<IP>, ghost k: nat)
      requires Valid()
      ensures k == Spec.FirstFree(Cfg(), Abs(), now, 0)
      ensures found.None? <==> Spec.FirstFree(Cfg(), Abs(), now, 0) == PoolSize(Cfg())
      ensures found.Some? ==>
                Value(found.value) == Spec.Ahead(Cfg(), Value(nextIP), Spec.FirstFree(Cfg(), Abs(), now, 0))
    {
      var start := nextIP;
      var ip := start;
      k := 0;
      Spec.AheadWalksRing(Cfg(), Value(start), 0);
      while true
        invariant 0 <= k < PoolSize(Cfg()) && Value(ip) == Spec.Ahead(Cfg(), Value(start), k)
        invariant Spec.FirstFree(Cfg(), Abs(), now, 0) == Spec.FirstFree(Cfg(), Abs(), now, k)
        decreases PoolSize(Cfg()) - k
      {
        var taken := IsLeasedOrReserved(ip, now);
        if !taken {
          return Some(ip), k;
        }
        var next := Step(ip);
        Spec.AheadWalksRing(Cfg(), Value(start), k);
        if k + 1 < PoolSize(Cfg()) {
          Spec.AheadWalksRing(Cfg(), Value(start), k + 1);
        } else {
          ValueInjective(next, start);
        }
        k := k + 1;
        if next == start {
          return None, k;
        }
        ip := next;
      }
    }

    /** The end of `allocate`: the address is leased and the cursor moves past it. */
    method Grant(mac: string, ip: IP, now: int, ghost k: nat)
      requires Valid() && k < PoolSize(Cfg()) && Value(ip) == Spec.Ahead(Cfg(), Value(nextIP), k)
      modifies this`leases, this`nextIP
      ensures Valid()
      ensures Abs() == Spec.Grant(old(Abs()), mac, Value(ip), now + lease, StepFrom(Cfg(), Value(ip)))
    {
      Spec.AheadWalksRing(Cfg(), Value(nextIP), k);
      StepWalksRing(Cfg(), Value(ip));
      Record(mac, ip, now);
      nextIP := Step(ip);
    }

    /** Increment, then back to the start when past the end. */
    method Step(ip: IP) returns (next: IP)
      ensures Value(next) == StepFrom(Cfg(), Value(ip))
    {
      next := IncIP(ip);
      var past := IpGreater(next, rangeEnd);
      if past {
        next := rangeStart;
      }
    }
  }
}
