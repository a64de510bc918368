/**
 What a readable extras file does, over whole sequences of reloads: when it is
 rejected, and that what it says reaches the scopes, the servers and the images.
 Stated by the contents of the file and the spelling of addresses.
 */
module ReloadLoaded {
  import opened Common
  import opened Ipv4
  import opened Mac
  import opened MacMaps
  import opened MacSpelling
  import opened SmbUsers
  import opened ConfigValues
  import opened ReloadRuns

  /** The file gives the first VLAN with some number an address it does not have. */
  ghost predicate Readdresses(vlans: seq<Vlan<Map>>, x: Extras) {
    exists i :: 0 <= i < |vlans| && vlans[i].id in x.vlanAddresses && x.vlanAddresses[vlans[i].id] != vlans[i].address
                && forall j :: 0 <= j < i ==> vlans[j].id != vlans[i].id
  }

  lemma MovesIffReaddresses(vlans: seq<Vlan<Map>>, x: Extras)
    ensures Moves(vlans, x) <==> Readdresses(vlans, x)
  {
    if i :| 0 <= i < |vlans| && Override(vlans, x.vlanAddresses, i) != vlans[i].address {
      assert IsFirst(vlans, i);
    }
    if Readdresses(vlans, x) {
      var i :| 0 <= i < |vlans| && vlans[i].id in x.vlanAddresses && x.vlanAddresses[vlans[i].id] != vlans[i].address
               && forall j :: 0 <= j < i ==> vlans[j].id != vlans[i].id;
      assert IsFirst(vlans, i);
      assert Override(vlans, x.vlanAddresses, i) != vlans[i].address;
    }
  }

  lemma SameVlansReaddress(vlans: seq<Vlan<Map>>, vlans': seq<Vlan<Map>>, x: Extras)
    requires |vlans| == |vlans'|
    requires forall i :: 0 <= i < |vlans| ==> vlans[i].id == vlans'[i].id && vlans[i].address == vlans'[i].address
    ensures Readdresses(vlans, x) ==> Readdresses(vlans', x)
  {
    if Readdresses(vlans, x) {
      var i :| 0 <= i < |vlans| && vlans[i].id in x.vlanAddresses && x.vlanAddresses[vlans[i].id] != vlans[i].address
               && forall j :: 0 <= j < i ==> vlans[j].id != vlans[i].id;
      assert vlans'[i].id in x.vlanAddresses;
    }
  }

  /**
   At any point of a run a readable file is rejected exactly when it would move
   a VLAN from where it was at start-up or its users have another key than those
   of start-up; for lists the SMB server accepts, when they are not the same
   users. Otherwise it is what the reload applies.
   */
  lemma LoadedRejectedIff(setup: Setup, t: seq<State>, steps: seq<Step>, k: nat)
    requires Run(setup, t, steps) && k < |steps| && steps[k].read.Loaded?
    ensures var x, out := steps[k].read.extras, steps[k].out;
            && (out == NoExtrasFile <==> setup.extrasPath == "")
            && (out == NeedsRestart <==>
                  setup.extrasPath != "" && (Readdresses(t[0].live.vlans, x) || Key(setup.users) != Key(x.smbUsers)))
            && (out.Reloaded? ==> out.extras == x)
            && ((forall u :: u in setup.users || u in x.smbUsers ==> ValidUser(u)) ==>
                  (Key(setup.users) != Key(x.smbUsers) <==> multiset(setup.users) != multiset(x.smbUsers)))
  {
    var x := steps[k].read.extras;
    assert Next(setup, t[k], steps[k].read, steps[k].out, t[k + 1]);
    BasisNeverChanges(setup, t, steps, k);
    MovesIffReaddresses(t[k].live.vlans, x);
    SameVlansReaddress(t[0].live.vlans, t[k].live.vlans, x);
    SameVlansReaddress(t[k].live.vlans, t[0].live.vlans, x);
    if forall u :: u in setup.users || u in x.smbUsers ==> ValidUser(u) {
      ValidKeysAreMultisets(setup.users, x.smbUsers);
    }
  }

  /** Step j is the last accepted one, and it read x from the file. */
  ghost predicate LastRead(steps: seq<Step>, j: nat, x: Extras) {
    j < |steps| && steps[j].read == Loaded(x) && LastAccepted(steps, j)
  }

  lemma LastReadIsApplied(setup: Setup, t: seq<State>, steps: seq<Step>, j: nat, x: Extras)
    requires Run(setup, t, steps) && LastRead(steps, j, x)
    ensures steps[j].out.extras == x && t[|steps|] == t[j + 1]
    ensures Next(setup, t[j], Loaded(x), Reloaded(x), t[j + 1])
  {
    LoadedRejectedIff(setup, t, steps, j);
    RejectedChangesNothing(setup, t, steps, j + 1, |steps|);
  }

  // Reservations of the servers.

  /** The string denotes an address in the server's subnet. */
  ghost predicate FitsServer(net: Net, info: Info, ip: string) {
    net.parse(ip).Some? && SameBlock(net.parse(ip).value, info.serverIP, info.subnetSize)
  }

  /** What base and file say together: the file wins for equal keys. */
  function Together(base: Dhcp<Map>, x: Extras): Map {
    base.reservations + x.reservations
  }

  /** All fitting entries that spell the same address as this one name the same address. */
  ghost predicate NoConflict(net: Net, info: Info, m: Map, key: string) {
    key in m && forall other ::
      other in m && FitsServer(net, info, m[other]) && SpelledAlike(other, key) ==>
        net.parse(m[other]) == net.parse(m[key])
  }

  lemma AdmittedIffFits(net: Net, info: Info, m: Map, key: string)
    requires info.subnetSize > 0
    ensures key in AdmittedBy(net, info, m) <==> key in m && FitsServer(net, info, m[key])
    ensures key in AdmittedBy(net, info, m) ==> Some(AdmittedBy(net, info, m)[key]) == net.parse(m[key])
  {
    if key in m && net.parse(m[key]).Some? {
      SameBlockIff(net.parse(m[key]).value, info.serverIP, info.subnetSize);
    }
  }

  /** A filled server knows a client exactly when a fitting entry spells its address, and by that entry. */
  lemma ServerKnows(net: Net, info: Info, m: Map, reservations: map<string, IP>, client: string)
    requires info.subnetSize > 0 && Overlay(map[], AdmittedBy(net, info, m), reservations)
    ensures Normalize(client) in reservations <==>
            exists key :: key in m && FitsServer(net, info, m[key]) && SpelledAlike(key, client)
    ensures forall key ::
              key in m && FitsServer(net, info, m[key]) && SpelledAlike(key, client)
              && NoConflict(net, info, m, key) ==>
                Normalize(client) in reservations && Some(reservations[Normalize(client)]) == net.parse(m[key])
  {
    var admitted := AdmittedBy(net, info, m);
    FilledIff(admitted, reservations, client);
    forall key
      ensures key in admitted <==> key in m && FitsServer(net, info, m[key])
      ensures key in admitted ==> Some(admitted[key]) == net.parse(m[key])
    {
      AdmittedIffFits(net, info, m, key);
    }
    forall key |
      key in m && FitsServer(net, info, m[key]) && SpelledAlike(key, client) && NoConflict(net, info, m, key)
      ensures Normalize(client) in reservations && Some(reservations[Normalize(client)]) == net.parse(m[key])
    {
      assert Agreed(admitted, key);
      FilledValue(map[], admitted, reservations, key, client);
    }
  }

  /**
   After a run whose last accepted file said x, a server has a reservation for a
   client exactly when the base reservations of its scope or x hold one for an
   address of its subnet under some spelling of the client's address, and it is
   that address if all of them agree.
   */
  lemma LoadedReservationsReach(
    setup: Setup, t: seq<State>, steps: seq<Step>, j: nat, x: Extras, i: nat, client: string)
    requires Run(setup, t, steps) && LastRead(steps, j, x) && i < |setup.infos|
    ensures var info, v := setup.infos[i], t[|steps|].servers[i];
            && HasScope(t[0].base, info.scope)
            && var m := Together(ScopeOf(t[0].base, info.scope), x);
               && (Normalize(client) in v.reservations <==>
                   exists key :: key in m && FitsServer(setup.net, info, m[key]) && SpelledAlike(key, client))
               && (forall key :: key in m && FitsServer(setup.net, info, m[key]) && SpelledAlike(key, client)
                                 && NoConflict(setup.net, info, m, key) ==>
                     && Normalize(client) in v.reservations
                     && Some(v.reservations[Normalize(client)]) == setup.net.parse(m[key]))
  {
    LastReadIsApplied(setup, t, steps, j, x);
    BasisNeverChanges(setup, t, steps, j);
    var info := setup.infos[i];
    assert ServerReloaded(setup.net, info, t[j].base, t[j + 1].live.pxe, x, t[j].servers[i], t[j + 1].servers[i]);
    ServerKnows(setup.net, info, Together(ScopeOf(t[0].base, info.scope), x), t[j + 1].servers[i].reservations, client);
  }

  /** In particular what the file itself says for an address of the subnet. */
  lemma LoadedEntryReaches(
    setup: Setup, t: seq<State>, steps: seq<Step>, j: nat, x: Extras, i: nat, key: string, client: string)
    requires Run(setup, t, steps) && LastRead(steps, j, x) && i < |setup.infos|
    requires key in x.reservations && FitsServer(setup.net, setup.infos[i], x.reservations[key])
    requires SpelledAlike(key, client) && HasScope(t[0].base, setup.infos[i].scope)
    requires NoConflict(setup.net, setup.infos[i], Together(ScopeOf(t[0].base, setup.infos[i].scope), x), key)
    ensures var v := t[|steps|].servers[i];
            && Normalize(client) in v.reservations
            && Some(v.reservations[Normalize(client)]) == setup.net.parse(x.reservations[key])
  {
    LoadedReservationsReach(setup, t, steps, j, x, i, client);
  }

  // Boot options and images.

  function FirstNonEmpty(a: string, b: string): string {
    if a != "" then a else b
  }

  /**
   After such a run, with PXE on, a server's boot options are those of x with
   the built-in defaults for what x leaves empty, its default boot file that of
   start-up; per-client boot files are those of x, by spelling.
   */
  lemma LoadedBootReaches(
    setup: Setup, t: seq<State>, steps: seq<Step>, j: nat, x: Extras, i: nat, client: string)
    requires Run(setup, t, steps) && LastRead(steps, j, x) && i < |setup.infos| && t[0].live.pxe.enabled
    ensures var b, tftp, first := t[|steps|].servers[i].boot, setup.infos[i].tftpAddr, t[0].live.pxe.bootFile;
            && b.server == (if tftp == "" then None else setup.net.parse(tftp))
            && b.file == FirstNonEmpty(FirstNonEmpty(first, x.defaultImage), "netboot.xyz.efi")
            && b.legacy == FirstNonEmpty(x.legacyBootFile, b.file)
            && b.uefi == FirstNonEmpty(x.uefiBootFile, "netboot.xyz.efi")
            && b.ipxe == FirstNonEmpty(x.ipxeScript, "boot.ipxe")
            && (Normalize(client) in b.macFiles <==> exists key :: key in x.macImages && SpelledAlike(key, client))
            && forall key :: Agreed(x.macImages, key) && SpelledAlike(key, client) ==>
                 Normalize(client) in b.macFiles && b.macFiles[Normalize(client)] == x.macImages[key]
  {
    LastReadIsApplied(setup, t, steps, j, x);
    BasisNeverChanges(setup, t, steps, j);
    var pxe := t[j + 1].live.pxe;
    assert ServerReloaded(setup.net, setup.infos[i], t[j].base, pxe, x, t[j].servers[i], t[j + 1].servers[i]);
    assert pxe == PxeOf(t[0].live.pxe, x, pxe.macImages) && t[|steps|].servers[i].boot.macFiles == pxe.macImages;
    FilledByClient(x.macImages, pxe.macImages, client);
  }

  lemma FilledByClient(entries: Map, result: Map, client: string)
    requires Overlay(map[], entries, result)
    ensures Normalize(client) in result <==> exists key :: key in entries && SpelledAlike(key, client)
    ensures forall key :: Agreed(entries, key) && SpelledAlike(key, client) ==>
              Normalize(client) in result && result[Normalize(client)] == entries[key]
  {
    FilledIff(entries, result, client);
    forall key | Agreed(entries, key) && SpelledAlike(key, client)
      ensures Normalize(client) in result && result[Normalize(client)] == entries[key]
    {
      FilledValue(map[], entries, result, key, client);
    }
  }

  /** The TFTP server hands out the images of x, and its default image. */
  lemma LoadedImagesReach(setup: Setup, t: seq<State>, steps: seq<Step>, j: nat, x: Extras, client: string)
    requires Run(setup, t, steps) && LastRead(steps, j, x) && t[0].images.Some?
    ensures var images := t[|steps|].images;
            && images.Some? && images.value.defaultImage == x.defaultImage
            && (Normalize(client) in images.value.macImages <==>
                exists key :: key in x.macImages && SpelledAlike(key, client))
            && forall key :: Agreed(x.macImages, key) && SpelledAlike(key, client) ==>
                 && Normalize(client) in images.value.macImages
                 && images.value.macImages[Normalize(client)] == x.macImages[key]
  {
    LastReadIsApplied(setup, t, steps, j, x);
    BasisNeverChanges(setup, t, steps, j);
    FilledByClient(x.macImages, t[j + 1].images.value.macImages, client);
  }

  // The scopes of the live configuration.

  /** The string denotes an address in the network of the scope; the merge does not look at the WiFi scope. */
  ghost predicate FitsScope(net: Net, s: Settings, scope: Scope, ip: string)
    requires HasScope(s, scope)
  {
    net.parse(ip).Some? &&
    match scope
    case LanScope => s.lanAddress != "" && net.contains(s.lanAddress, net.parse(ip).value)
    case WifiScope => false
    case VlanScope(i) => net.contains(s.vlans[i].address, net.parse(ip).value)
  }

  /** The entries of x that fit the scope. */
  ghost function EntriesFor(net: Net, s: Settings, x: Extras, scope: Scope): (m: Map)
    requires HasScope(s, scope)
    ensures forall key :: key in m <==> key in x.reservations && FitsScope(net, s, scope, x.reservations[key])
    ensures forall key :: key in m ==> m[key] == x.reservations[key]
  {
    map key | key in x.reservations && FitsScope(net, s, scope, x.reservations[key]) :: x.reservations[key]
  }

  lemma MergedScope(net: Net, s: Settings, x: Extras, s': Settings, scope: Scope)
    requires HasScope(s, scope) && Applied(net, s, x, s')
    ensures HasScope(s', scope)
    ensures Overlay(ScopeOf(s, scope).reservations, EntriesFor(net, s, x, scope), ScopeOf(s', scope).reservations)
    ensures ScopeOf(s', scope).pxeBootFile == x.pxeBootFile && (x.dns != [] ==> ScopeOf(s', scope).dns == x.dns)
  {
    var m := EntriesFor(net, s, x, scope);
    match scope
    case LanScope => assert m == LanEntries(net, s, x);
    case WifiScope => assert m == map[];
    case VlanScope(i) =>
      assert VlanApplied(net, s.vlans, x, i, s'.vlans[i]);
      assert m == Within(net, s.vlans[i].address, x.reservations);
  }

  /**
   A merge gives a scope a reservation for a client exactly when it had one
   before or the file has one for an address of its network, under whatever
   spelling, and its boot file and name servers are those of the file.
   */
  lemma LoadedScopesReach(
    setup: Setup, t: seq<State>, steps: seq<Step>, j: nat, x: Extras, scope: Scope, client: string)
    requires Run(setup, t, steps) && LastRead(steps, j, x) && HasScope(t[j].live, scope)
    ensures HasScope(t[|steps|].live, scope)
    ensures var before, d := ScopeOf(t[j].live, scope), ScopeOf(t[|steps|].live, scope);
            && (Normalize(client) in d.reservations <==>
                || Normalize(client) in before.reservations
                || exists key :: key in x.reservations && FitsScope(setup.net, t[j].live, scope, x.reservations[key])
                                 && SpelledAlike(key, client))
            && d.pxeBootFile == x.pxeBootFile && (x.dns != [] ==> d.dns == x.dns)
    ensures forall key ::
              Agreed(EntriesFor(setup.net, t[j].live, x, scope), key) && SpelledAlike(key, client) ==>
                var d := ScopeOf(t[|steps|].live, scope).reservations;
                Normalize(client) in d && d[Normalize(client)] == x.reservations[key]
  {
    LastReadIsApplied(setup, t, steps, j, x);
    var m, prior := EntriesFor(setup.net, t[j].live, x, scope), ScopeOf(t[j].live, scope).reservations;
    MergedScope(setup.net, t[j].live, x, t[j + 1].live, scope);
    var result := ScopeOf(t[j + 1].live, scope).reservations;
    MergedIff(prior, m, result, client);
    forall key | Agreed(m, key) && SpelledAlike(key, client)
      ensures Normalize(client) in result && result[Normalize(client)] == x.reservations[key]
    {
      FilledValue(prior, m, result, key, client);
    }
  }
}
