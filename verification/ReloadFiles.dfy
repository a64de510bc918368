/**
 What a reload makes of a file that cannot be read, that is not there, or that
 no longer says something it said before, over whole sequences of reloads.
 */
module ReloadFiles {
  import opened Common
  import opened Ipv4
  import opened Mac
  import opened MacMaps
  import opened SmbUsers
  import opened ConfigValues
  import opened ReloadRuns

  // A file that cannot be read, or that is absent and cannot be created.

  predicate Fails(read: Read) {
    read == Broken || read == Absent(false)
  }

  /** "Falls back to the base config" goes through exactly with a path and no SMB user configured at start-up. */
  lemma FallbackAcceptedIff(setup: Setup, s: State, read: Read, out: Outcome, s': State)
    requires Proper(setup, s) && Fails(read) && Next(setup, s, read, out, s')
    ensures out.Reloaded? <==> setup.extrasPath != "" && setup.users == []
  {
    EmptyKey(setup.users);
  }

  /** The live configuration was made from the base one: merging extras leaves the switch and the default boot file. */
  predicate FromBase(live: Settings, base: Settings) {
    live.pxe.enabled == base.pxe.enabled && live.pxe.bootFile == base.pxe.bootFile
  }

  /** Boot settings that say no more than the built-in defaults, given the default boot file. */
  predicate SaysDefaults(p: Pxe<Map>) {
    && (p.bootFile == "" ==> p.defaultImage in {"", "netboot.xyz.efi"})
    && p.legacyBootFile in {"", Or(p.bootFile, "netboot.xyz.efi")}
    && p.uefiBootFile in {"", "netboot.xyz.efi"}
    && p.ipxeScript in {"", "boot.ipxe"}
    && p.macImages == map[]
  }

  lemma DefaultsBootAlike(server: Option<IP>, p: Pxe<Map>)
    ensures BootFor(server, PxeOf(p, NO_EXTRAS, map[])) == BootFor(server, p) <==> SaysDefaults(p)
  {
  }

  /**
   After an accepted fallback at any point of a run from start-up, a server's
   reservations are those of the base configuration alone; with PXE on, its boot
   options are those of the base configuration exactly when that one says no
   more than the defaults; with PXE off they are those of start-up.
   */
  lemma FallbackIsBaseIff(setup: Setup, t: seq<State>, steps: seq<Step>, k: nat, i: nat)
    requires Run(setup, t, steps) && FromBase(t[0].live, t[0].base)
    requires k < |steps| && Fails(steps[k].read) && steps[k].out.Reloaded? && i < |setup.infos|
    ensures var base, info, v := t[0].base, setup.infos[i], t[k + 1].servers[i];
            && info.subnetSize > 0 && HasScope(base, info.scope)
            && Overlay(map[], AdmittedBy(setup.net, info, ScopeOf(base, info.scope).reservations), v.reservations)
            && (base.pxe.enabled ==>
                  (v.boot == BootFor(BootServer(setup.net, info), base.pxe) <==> SaysDefaults(base.pxe)))
            && (!base.pxe.enabled ==> v.boot == t[0].servers[i].boot)
  {
    var s, s', base, info := t[k], t[k + 1], t[0].base, setup.infos[i];
    BasisNeverChanges(setup, t, steps, k);
    assert Next(setup, s, steps[k].read, Reloaded(NO_EXTRAS), s');
    assert ServerReloaded(setup.net, info, base, s'.live.pxe, NO_EXTRAS, s.servers[i], s'.servers[i]);
    OverlayNothing<string>(map[]);
    OneOutcome(map[], NO_EXTRAS.macImages, map[], s'.live.pxe.macImages);
    assert s'.live.pxe == PxeOf(base.pxe, NO_EXTRAS, map[]);
    DefaultsBootAlike(BootServer(setup.net, info), base.pxe);
    assert ScopeOf(base, info.scope).reservations + map[] == ScopeOf(base, info.scope).reservations;
    if !base.pxe.enabled {
      BootStaysOff(setup, t, steps, k + 1, i);
    }
  }

  // An absent file.

  /** Some scope of the configuration reserves an address for the client. */
  ghost predicate ReservedSomewhere(s: Settings, mac: string) {
    || mac in s.lan.reservations || mac in s.wifi.reservations
    || exists i :: 0 <= i < |s.vlans| && mac in s.vlans[i].dhcp.reservations
  }

  lemma {:induction false} VlanReservationsAreAll(vlans: seq<Vlan<Map>>, mac: string)
    ensures mac in VlanReservations(vlans) <==> exists i :: 0 <= i < |vlans| && mac in vlans[i].dhcp.reservations
    decreases |vlans|
  {
    if vlans != [] {
      var front, n := vlans[..|vlans| - 1], |vlans| - 1;
      VlanReservationsAreAll(front, mac);
      if i :| 0 <= i < |vlans| && mac in vlans[i].dhcp.reservations {
        assert i < n ==> front[i] == vlans[i];
      }
      if i :| 0 <= i < |front| && mac in front[i].dhcp.reservations {
        assert vlans[i] == front[i];
      }
    }
  }

  /** A file made from a configuration names exactly the clients some scope of it reserves. */
  lemma MadeFileNames(s: Settings, mac: string)
    ensures mac in FromConfig(s).reservations <==> ReservedSomewhere(s, mac)
  {
    VlanReservationsAreAll(s.vlans, mac);
  }

  /** Among VLANs that reserve an address for one client the last one decides; then the flat network, then WiFi. */
  lemma {:induction false} LastVlanDecides(vlans: seq<Vlan<Map>>, mac: string)
    requires mac in VlanReservations(vlans)
    ensures exists i: nat ::
              && i < |vlans| && mac in vlans[i].dhcp.reservations
              && (forall j :: i < j < |vlans| ==> mac !in vlans[j].dhcp.reservations)
              && VlanReservations(vlans)[mac] == vlans[i].dhcp.reservations[mac]
    decreases |vlans|
  {
    var n := |vlans| - 1;
    if mac !in vlans[n].dhcp.reservations {
      LastVlanDecides(vlans[..n], mac);
      var i: nat :|
        && i < n && mac in vlans[..n][i].dhcp.reservations
        && (forall j :: i < j < n ==> mac !in vlans[..n][j].dhcp.reservations)
        && VlanReservations(vlans[..n])[mac] == vlans[..n][i].dhcp.reservations[mac];
      assert forall j :: i < j < n ==> vlans[..n][j] == vlans[j];
    }
  }

  lemma MadeFileReserves(s: Settings, mac: string)
    requires mac in FromConfig(s).reservations
    ensures var ip := FromConfig(s).reservations[mac];
            if mac in s.wifi.reservations then ip == s.wifi.reservations[mac]
            else if mac in s.lan.reservations then ip == s.lan.reservations[mac]
            else exists i: nat ::
                   && i < |s.vlans| && mac in s.vlans[i].dhcp.reservations
                   && (forall j :: i < j < |s.vlans| ==> mac !in s.vlans[j].dhcp.reservations)
                   && ip == s.vlans[i].dhcp.reservations[mac]
  {
    if mac !in s.wifi.reservations && mac !in s.lan.reservations {
      LastVlanDecides(s.vlans, mac);
    }
  }

  /** The flat network or some VLAN contains the address. */
  ghost predicate InsideSome(net: Net, s: Settings, ip: string) {
    || (s.lanAddress != "" && Inside(net, s.lanAddress, ip))
    || exists i :: 0 <= i < |s.vlans| && Inside(net, s.vlans[i].address, ip)
  }

  /** The extras reserve an address of some scope for the client, in whatever spelling. */
  ghost predicate Brings(net: Net, s: Settings, x: Extras, mac: string) {
    exists key :: key in x.reservations && Normalize(key) == mac && InsideSome(net, s, x.reservations[key])
  }

  lemma OverlayKeys(prior: Map, entries: Map, result: Map, mac: string)
    requires Overlay(prior, entries, result)
    ensures mac in result <==> mac in prior || exists key :: key in entries && Normalize(key) == mac
  {
    if mac in result {
      assert Kept(prior, entries, result, mac) || Written(entries, result, mac);
    }
  }

  /** A merge adds what the extras bring and takes nothing away. */
  lemma MergeReserves(net: Net, s: Settings, x: Extras, s': Settings, mac: string)
    requires Applied(net, s, x, s')
    ensures ReservedSomewhere(s', mac) <==> ReservedSomewhere(s, mac) || Brings(net, s, x, mac)
  {
    OverlayKeys(s.lan.reservations, LanEntries(net, s, x), s'.lan.reservations, mac);
    OverlayKeys(s.wifi.reservations, map[], s'.wifi.reservations, mac);
    forall i | 0 <= i < |s.vlans|
      ensures mac in s'.vlans[i].dhcp.reservations <==>
              mac in s.vlans[i].dhcp.reservations || VlanBrings(net, s, x, mac, i)
    {
      assert VlanApplied(net, s.vlans, x, i, s'.vlans[i]);
      OverlayKeys(s.vlans[i].dhcp.reservations, Within(net, s.vlans[i].address, x.reservations),
                  s'.vlans[i].dhcp.reservations, mac);
    }
    if Brings(net, s, x, mac) {
      var key :| key in x.reservations && Normalize(key) == mac && InsideSome(net, s, x.reservations[key]);
      if s.lanAddress != "" && Inside(net, s.lanAddress, x.reservations[key]) {
        assert key in LanEntries(net, s, x);
      } else {
        var i :| 0 <= i < |s.vlans| && Inside(net, s.vlans[i].address, x.reservations[key]);
        assert VlanBrings(net, s, x, mac, i);
      }
    }
  }

  ghost predicate VlanBrings(net: Net, s: Settings, x: Extras, mac: string, i: nat)
    requires i < |s.vlans|
  {
    exists key :: key in Within(net, s.vlans[i].address, x.reservations) && Normalize(key) == mac
  }

  lemma SameScopesBringAlike(net: Net, s: State, s': State, x: Extras, mac: string)
    requires SameBasis(s, s')
    ensures Brings(net, s.live, x, mac) <==> Brings(net, s'.live, x, mac)
  {
    forall ip
      ensures InsideSome(net, s.live, ip) <==> InsideSome(net, s'.live, ip)
    {
      if i :| 0 <= i < |s.live.vlans| && Inside(net, s.live.vlans[i].address, ip) {
        assert Inside(net, s'.live.vlans[i].address, ip);
      }
      if i :| 0 <= i < |s'.live.vlans| && Inside(net, s'.live.vlans[i].address, ip) {
        assert Inside(net, s.live.vlans[i].address, ip);
      }
    }
  }

  /** Some accepted step before the k-th brought a reservation for the client. */
  ghost predicate BroughtBefore(net: Net, start: Settings, steps: seq<Step>, k: nat, mac: string)
    requires k <= |steps|
  {
    exists j :: 0 <= j < k && steps[j].out.Reloaded? && Brings(net, start, steps[j].out.extras, mac)
  }

  lemma NextReserves(setup: Setup, s: State, step: Step, s': State, mac: string)
    requires Proper(setup, s) && Next(setup, s, step.read, step.out, s')
    ensures ReservedSomewhere(s'.live, mac) <==>
            ReservedSomewhere(s.live, mac) || (step.out.Reloaded? && Brings(setup.net, s.live, step.out.extras, mac))
  {
    if step.out.Reloaded? {
      MergeReserves(setup.net, s.live, step.out.extras, s'.live, mac);
    }
  }

  lemma BroughtBeforeNext(net: Net, start: Settings, steps: seq<Step>, k: nat, mac: string)
    requires k < |steps|
    ensures BroughtBefore(net, start, steps, k + 1, mac) <==>
            || BroughtBefore(net, start, steps, k, mac)
            || (steps[k].out.Reloaded? && Brings(net, start, steps[k].out.extras, mac))
  {
  }

  /** The same, for what each state says. */
  lemma {:induction false} NamesPileUp(
    net: Net, start: Settings, steps: seq<Step>, named: seq<bool>, k: nat, mac: string)
    requires |named| == |steps| + 1 && k < |named|
    requires forall m :: 0 <= m < |steps| ==>
               (named[m + 1] <==> named[m] || (steps[m].out.Reloaded? && Brings(net, start, steps[m].out.extras, mac)))
    ensures named[k] <==> named[0] || BroughtBefore(net, start, steps, k, mac)
  {
    if k > 0 {
      NamesPileUp(net, start, steps, named, k - 1, mac);
      BroughtBeforeNext(net, start, steps, k - 1, mac);
    }
  }

  lemma StepReserves(setup: Setup, t: seq<State>, steps: seq<Step>, m: nat, mac: string)
    requires Run(setup, t, steps) && m < |steps|
    ensures ReservedSomewhere(t[m + 1].live, mac) <==>
            || ReservedSomewhere(t[m].live, mac)
            || (steps[m].out.Reloaded? && Brings(setup.net, t[0].live, steps[m].out.extras, mac))
  {
    NextReserves(setup, t[m], steps[m], t[m + 1], mac);
    if steps[m].out.Reloaded? {
      BasisNeverChanges(setup, t, steps, m);
      SameScopesBringAlike(setup.net, t[0], t[m], steps[m].out.extras, mac);
    }
  }

  lemma ReservationsPileUp(setup: Setup, t: seq<State>, steps: seq<Step>, k: nat, mac: string)
    requires Run(setup, t, steps) && k < |t|
    ensures ReservedSomewhere(t[k].live, mac) <==>
            ReservedSomewhere(t[0].live, mac) || BroughtBefore(setup.net, t[0].live, steps, k, mac)
  {
    var named := seq(|t|, i requires 0 <= i < |t| => ReservedSomewhere(t[i].live, mac));
    forall m | 0 <= m < |steps|
      ensures named[m + 1] <==>
              named[m] || (steps[m].out.Reloaded? && Brings(setup.net, t[0].live, steps[m].out.extras, mac))
    {
      StepReserves(setup, t, steps, m, mac);
    }
    NamesPileUp(setup.net, t[0].live, steps, named, k, mac);
  }

  /**
   At any point of a run, a file made because there was none reserves an address
   for a client exactly when some scope did so at start-up, or any extras
   accepted since did so for an address of the flat network or of a VLAN, even
   if later files no longer named the client.
   */
  lemma RecreatedFileNamesIff(setup: Setup, t: seq<State>, steps: seq<Step>, k: nat, mac: string)
    requires Run(setup, t, steps) && k < |steps| && steps[k].read == Absent(true)
    ensures mac in ExtrasOf(t[k].live, steps[k].read).reservations <==>
            ReservedSomewhere(t[0].live, mac) || BroughtBefore(setup.net, t[0].live, steps, k, mac)
  {
    ReservationsPileUp(setup, t, steps, k, mac);
    MadeFileNames(t[k].live, mac);
  }

  // "Nothing is lost" when a file is made from a configuration and merged back into it.

  /** A scope keeps its boot file exactly when that is the global one; its name servers stay. */
  lemma SeedingKeepsBootFileIff(net: Net, s: Settings, s': Settings, scope: Scope)
    requires HasScope(s, scope) && Applied(net, s, FromConfig(s), s')
    ensures HasScope(s', scope) && ScopeOf(s', scope).dns == ScopeOf(s, scope).dns
    ensures ScopeOf(s', scope).pxeBootFile == ScopeOf(s, scope).pxeBootFile <==>
            ScopeOf(s, scope).pxeBootFile == s.pxe.bootFile
  {
    if scope.VlanScope? {
      assert VlanApplied(net, s.vlans, FromConfig(s), scope.i, s'.vlans[scope.i]);
    }
  }

  /** The boot settings stay exactly when all image keys are normal. */
  lemma SeedingKeepsPxeIff(net: Net, s: Settings, s': Settings)
    requires Applied(net, s, FromConfig(s), s')
    ensures s'.pxe == s.pxe <==> forall k :: k in s.pxe.macImages ==> IsNormal(k)
  {
    SeededPxe(s.pxe, FromConfig(s), s'.pxe);
  }

  lemma SeededPxe(p: Pxe<Map>, x: Extras, p': Pxe<Map>)
    requires x.macImages == p.macImages && PxeOf(p, x, p.macImages) == p && PxeApplied(p, x, p')
    ensures p' == p <==> forall k :: k in p.macImages ==> IsNormal(k)
  {
    CopiesIffNormal(p.macImages, p'.macImages);
  }

  /** What a file made from the configuration says for the flat network, or for a VLAN. */
  function SeededFor(net: Net, s: Settings, scope: Scope): Map
    requires HasScope(s, scope)
  {
    match scope
    case LanScope => LanEntries(net, s, FromConfig(s))
    case WifiScope => map[]
    case VlanScope(i) => Within(net, s.vlans[i].address, FromConfig(s).reservations)
  }

  /**
   The reservations of a scope are sure to stay as they are exactly when the
   file names, for addresses of that scope, only what it already has under
   normal keys.
   */
  lemma SeedingKeepsReservationsIff(net: Net, s: Settings, scope: Scope)
    requires HasScope(s, scope)
    ensures (forall s' :: Applied(net, s, FromConfig(s), s') ==>
               HasScope(s', scope) && ScopeOf(s', scope).reservations == ScopeOf(s, scope).reservations)
            <==> AlreadyIn(ScopeOf(s, scope).reservations, SeededFor(net, s, scope))
  {
    var prior, entries := ScopeOf(s, scope).reservations, SeededFor(net, s, scope);
    if AlreadyIn(prior, entries) {
      forall s' | Applied(net, s, FromConfig(s), s')
        ensures HasScope(s', scope) && ScopeOf(s', scope).reservations == prior
      {
        ScopeSeeded(net, s, s', scope);
        AlreadyInStays(prior, entries, ScopeOf(s', scope).reservations);
      }
    } else {
      NothingChangesIff(prior, entries);
      var result :| Overlay(prior, entries, result) && result != prior;
      var s' := SomeSeeding(net, s, scope, result);
    }
  }

  lemma ScopeSeeded(net: Net, s: Settings, s': Settings, scope: Scope)
    requires HasScope(s, scope) && Applied(net, s, FromConfig(s), s')
    ensures HasScope(s', scope)
    ensures Overlay(ScopeOf(s, scope).reservations, SeededFor(net, s, scope), ScopeOf(s', scope).reservations)
  {
    if scope.VlanScope? {
      assert VlanApplied(net, s.vlans, FromConfig(s), scope.i, s'.vlans[scope.i]);
    }
  }

  /** A merge can leave a scope with any outcome that scope allows, whatever it does to the others. */
  lemma SomeSeeding(net: Net, s: Settings, scope: Scope, result: Map) returns (s': Settings)
    requires HasScope(s, scope) && Overlay(ScopeOf(s, scope).reservations, SeededFor(net, s, scope), result)
    ensures Applied(net, s, FromConfig(s), s') && HasScope(s', scope) && ScopeOf(s', scope).reservations == result
  {
    var x := FromConfig(s);
    var lan := if scope.LanScope? then result else SomeMerge(s.lan.reservations, LanEntries(net, s, x));
    var wifi := if scope.WifiScope? then result else s.wifi.reservations;
    OverlayNothing(s.wifi.reservations);
    var images := SomeMerge(map[], x.macImages);
    var vlans := SomeVlans(net, s.vlans, x, |s.vlans|);
    if scope.VlanScope? {
      var v := vlans[scope.i];
      vlans := vlans[scope.i := v.(dhcp := v.dhcp.(reservations := result))];
    }
    s' := Settings(s.lanAddress, Dhcp(lan, DnsOr(x, s.lan.dns), x.pxeBootFile),
                   Dhcp(wifi, DnsOr(x, s.wifi.dns), x.pxeBootFile), vlans, PxeOf(s.pxe, x, images));
  }

  lemma SomeMergeExists(prior: Map, entries: Map)
    ensures exists result :: Overlay(prior, entries, result)
  {
    var result := SomeOutcome(prior, entries);
  }

  ghost function SomeMerge(prior: Map, entries: Map): (result: Map)
    ensures Overlay(prior, entries, result)
  {
    SomeMergeExists(prior, entries);
    var result :| Overlay(prior, entries, result);
    result
  }

  lemma {:induction false} SomeVlans(net: Net, vlans: seq<Vlan<Map>>, x: Extras, n: nat) returns (vs: seq<Vlan<Map>>)
    requires n <= |vlans|
    ensures |vs| == n && forall i :: 0 <= i < n ==> VlanApplied(net, vlans, x, i, vs[i])
  {
    vs := [];
    if n > 0 {
      vs := SomeVlans(net, vlans, x, n - 1);
      var d := vlans[n - 1].dhcp;
      var reservations := SomeMerge(d.reservations, Within(net, vlans[n - 1].address, x.reservations));
      var v := Vlan(vlans[n - 1].id, Override(vlans, x.vlanAddresses, n - 1),
                    Dhcp(reservations, DnsOr(x, d.dns), x.pxeBootFile));
      assert VlanApplied(net, vlans, x, n - 1, v);
      vs := vs + [v];
    }
  }

  ghost predicate IsLast(vlans: seq<Vlan<Map>>, j: nat)
    requires j < |vlans|
  {
    forall k :: j < k < |vlans| ==> vlans[k].id != vlans[j].id
  }

  /** The first and the last VLAN with one number have different addresses. */
  ghost predicate Split(vlans: seq<Vlan<Map>>, i: nat, j: nat) {
    i < |vlans| && j < |vlans| && vlans[i].id == vlans[j].id
    && IsFirst(vlans, i) && IsLast(vlans, j) && vlans[i].address != vlans[j].address
  }

  ghost predicate SplitSomewhere(vlans: seq<Vlan<Map>>) {
    exists i: nat, j: nat :: Split(vlans, i, j)
  }

  lemma {:induction false} LastOf(vlans: seq<Vlan<Map>>, k: nat) returns (j: nat)
    requires k < |vlans|
    ensures j < |vlans| && vlans[j].id == vlans[k].id && IsLast(vlans, j)
    ensures vlans[k].id in VlanAddresses(vlans) && VlanAddresses(vlans)[vlans[k].id] == vlans[j].address
    decreases |vlans|
  {
    var n := |vlans| - 1;
    if vlans[n].id == vlans[k].id {
      j := n;
    } else {
      j := LastOf(vlans[..n], k);
    }
  }

  /** Such a file asks for a restart over an address exactly when two VLANs share a number but not an address. */
  lemma RecreatedFileMovesIff(s: Settings)
    ensures Moves(s.vlans, FromConfig(s)) <==> SplitSomewhere(s.vlans)
  {
    if Moves(s.vlans, FromConfig(s)) {
      var i :| 0 <= i < |s.vlans| && Override(s.vlans, FromConfig(s).vlanAddresses, i) != s.vlans[i].address;
      var j := LastOf(s.vlans, i);
      assert Split(s.vlans, i, j);
    }
    if i: nat, j: nat :| Split(s.vlans, i, j) {
      var last := LastOf(s.vlans, i);
      assert last == j;
      assert Override(s.vlans, FromConfig(s).vlanAddresses, i) == s.vlans[j].address;
    }
  }

  /** It is accepted exactly with a path, no SMB user configured at start-up, and no such VLANs. */
  lemma RecreatedFileAcceptedIff(setup: Setup, s: State, out: Outcome, s': State)
    requires Proper(setup, s) && Next(setup, s, Absent(true), out, s')
    ensures out.Reloaded? <==> setup.extrasPath != "" && setup.users == [] && !SplitSomewhere(s.live.vlans)
  {
    EmptyKey(setup.users);
    RecreatedFileMovesIff(s.live);
  }

  // Name servers removed from the file.

  /** The name servers of the last accepted extras that named any, before step k. */
  function LastDns(steps: seq<Step>, k: nat): seq<string>
    requires k <= |steps|
  {
    if k == 0 then []
    else if steps[k - 1].out.Reloaded? && steps[k - 1].out.extras.dns != [] then steps[k - 1].out.extras.dns
    else LastDns(steps, k - 1)
  }

  lemma NextDns(setup: Setup, s: State, step: Step, s': State, scope: Scope)
    requires Proper(setup, s) && Next(setup, s, step.read, step.out, s') && HasScope(s.live, scope)
    ensures HasScope(s'.live, scope)
    ensures ScopeOf(s'.live, scope).dns ==
            if step.out.Reloaded? then DnsOr(step.out.extras, ScopeOf(s.live, scope).dns)
            else ScopeOf(s.live, scope).dns
  {
    if step.out.Reloaded? && scope.VlanScope? {
      assert VlanApplied(setup.net, s.live.vlans, step.out.extras, scope.i, s'.live.vlans[scope.i]);
    }
  }

  /** The same, for the name servers alone. */
  lemma {:induction false} LastDnsStays(steps: seq<Step>, dns: seq<seq<string>>, k: nat)
    requires |dns| == |steps| + 1 && k < |dns|
    requires forall m :: 0 <= m < |steps| ==>
               dns[m + 1] == if steps[m].out.Reloaded? then DnsOr(steps[m].out.extras, dns[m]) else dns[m]
    ensures dns[k] == if LastDns(steps, k) == [] then dns[0] else LastDns(steps, k)
  {
    if k > 0 {
      LastDnsStays(steps, dns, k - 1);
    }
  }

  lemma ScopeStays(setup: Setup, t: seq<State>, steps: seq<Step>, k: nat, scope: Scope)
    requires Run(setup, t, steps) && k < |t|
    ensures HasScope(t[k].live, scope) <==> HasScope(t[0].live, scope)
  {
    BasisNeverChanges(setup, t, steps, k);
  }

  lemma DnsFollows(setup: Setup, t: seq<State>, steps: seq<Step>, k: nat, scope: Scope)
    requires Run(setup, t, steps) && k < |t| && HasScope(t[0].live, scope)
    ensures HasScope(t[k].live, scope)
    ensures ScopeOf(t[k].live, scope).dns ==
            if LastDns(steps, k) == [] then ScopeOf(t[0].live, scope).dns else LastDns(steps, k)
  {
    forall i | 0 <= i < |t|
      ensures HasScope(t[i].live, scope)
    {
      ScopeStays(setup, t, steps, i, scope);
    }
    var dns := seq(|t|, i requires 0 <= i < |t| => ScopeOf(t[i].live, scope).dns);
    forall m | 0 <= m < |steps|
      ensures dns[m + 1] == if steps[m].out.Reloaded? then DnsOr(steps[m].out.extras, dns[m]) else dns[m]
    {
      NextDns(setup, t[m], steps[m], t[m + 1], scope);
    }
    LastDnsStays(steps, dns, k);
  }

  /**
   A scope is back at its base name servers exactly when that is where start-up
   left it and no accepted extras named any since, or the last that did named
   the same. Removing the entry from the file is not enough.
   */
  lemma DnsRevertsIff(setup: Setup, t: seq<State>, steps: seq<Step>, k: nat, scope: Scope)
    requires Run(setup, t, steps) && k < |t| && HasScope(t[0].live, scope) && HasScope(t[0].base, scope)
    ensures HasScope(t[k].live, scope)
    ensures ScopeOf(t[k].live, scope).dns == ScopeOf(t[0].base, scope).dns <==>
            if LastDns(steps, k) == [] then ScopeOf(t[0].live, scope).dns == ScopeOf(t[0].base, scope).dns
            else LastDns(steps, k) == ScopeOf(t[0].base, scope).dns
  {
    DnsFollows(setup, t, steps, k, scope);
  }
}
