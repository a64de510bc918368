/**
 The parts of the router's configuration that a reload reads or changes, as
 values, and what merging an extras file does to them. `RouterConfig` holds the
 same settings in maps that can be shared, and proves that its loops do this.
 */
module ConfigValues {
  import opened Common
  import opened DhcpBoot
  import opened Ipv4
  import opened MacMaps
  import opened SmbUsers

  type Map = map<string, string>

  /**
   Address parsing: the IPv4 address a string denotes, and whether a CIDR string
   parses to a subnet containing an address.
   */
  datatype Net = Net(parse: string -> Option<IP>, contains: (string, IP) -> bool)

  // M is `Map` for values, a reference to a map in a configuration in memory.

  datatype Dhcp<M> = Dhcp(reservations: M, dns: seq<string>, pxeBootFile: string)

  datatype Vlan<M> = Vlan(id: int, address: string, dhcp: Dhcp<M>)

  datatype Pxe<M> = Pxe(
    enabled: bool, bootFile: string, defaultImage: string,
    legacyBootFile: string, uefiBootFile: string, ipxeScript: string, macImages: M)

  datatype Settings = Settings(
    lanAddress: string, lan: Dhcp<Map>, wifi: Dhcp<Map>, vlans: seq<Vlan<Map>>, pxe: Pxe<Map>)

  datatype Extras = Extras(
    reservations: Map, macImages: Map, defaultImage: string, pxeBootFile: string,
    legacyBootFile: string, uefiBootFile: string, ipxeScript: string,
    smbUsers: seq<User>, vlanAddresses: map<int, string>, dns: seq<string>)

  const NO_EXTRAS := Extras(map[], map[], "", "", "", "", "", [], map[], [])

  /** The string denotes an address of the subnet. */
  predicate Inside(net: Net, address: string, ip: string) {
    net.parse(ip).Some? && net.contains(address, net.parse(ip).value)
  }

  function Within(net: Net, address: string, m: Map): Map {
    map mac | mac in m && Inside(net, address, m[mac]) :: m[mac]
  }

  /** The extra reservations that concern the flat network, if there is one. */
  function LanEntries(net: Net, s: Settings, x: Extras): Map {
    if s.lanAddress == "" then map[] else Within(net, s.lanAddress, x.reservations)
  }

  /** No earlier VLAN has the same number. */
  predicate IsFirst<M>(vlans: seq<Vlan<M>>, i: nat)
    requires i < |vlans|
  {
    forall j :: 0 <= j < i ==> vlans[j].id != vlans[i].id
  }

  /** Address overrides reach the first VLAN with the number. */
  function Override<M>(vlans: seq<Vlan<M>>, addresses: map<int, string>, i: nat): string
    requires i < |vlans|
  {
    if vlans[i].id in addresses && IsFirst(vlans, i) then addresses[vlans[i].id] else vlans[i].address
  }

  function DnsOr(x: Extras, dns: seq<string>): seq<string> {
    if x.dns == [] then dns else x.dns
  }

  /** A scope after the merge: reservations are added, the boot file and name servers replaced. */
  ghost predicate DhcpApplied(d: Dhcp<Map>, entries: Map, x: Extras, d': Dhcp<Map>) {
    && Overlay(d.reservations, entries, d'.reservations)
    && d'.dns == DnsOr(x, d.dns)
    && d'.pxeBootFile == x.pxeBootFile
  }

  ghost predicate VlanApplied(net: Net, vlans: seq<Vlan<Map>>, x: Extras, i: nat, v: Vlan<Map>)
    requires i < |vlans|
  {
    && v.id == vlans[i].id
    && v.address == Override(vlans, x.vlanAddresses, i)
    && DhcpApplied(vlans[i].dhcp, Within(net, vlans[i].address, x.reservations), x, v.dhcp)
  }

  /** Everything but the switch and the default boot file is replaced. */
  ghost predicate PxeApplied(p: Pxe<Map>, x: Extras, p': Pxe<Map>) {
    && p' == Pxe(p.enabled, p.bootFile, x.defaultImage, x.legacyBootFile, x.uefiBootFile, x.ipxeScript, p'.macImages)
    && Overlay(map[], x.macImages, p'.macImages)
  }

  /** A possible outcome of `ApplyExtras`. */
  ghost predicate Applied(net: Net, s: Settings, x: Extras, s': Settings) {
    && s'.lanAddress == s.lanAddress
    && DhcpApplied(s.lan, LanEntries(net, s, x), x, s'.lan)
    && DhcpApplied(s.wifi, map[], x, s'.wifi)
    && |s'.vlans| == |s.vlans|
    && (forall i :: 0 <= i < |s.vlans| ==> VlanApplied(net, s.vlans, x, i, s'.vlans[i]))
    && PxeApplied(s.pxe, x, s'.pxe)
  }

  // The extras file made from a configuration.

  function VlanReservations(vlans: seq<Vlan<Map>>): Map {
    if vlans == [] then map[]
    else VlanReservations(vlans[..|vlans| - 1]) + vlans[|vlans| - 1].dhcp.reservations
  }

  /** The last VLAN with a number wins here. */
  function VlanAddresses(vlans: seq<Vlan<Map>>): map<int, string> {
    if vlans == [] then map[]
    else VlanAddresses(vlans[..|vlans| - 1])[vlans[|vlans| - 1].id := vlans[|vlans| - 1].address]
  }

  /** `ExtrasFromConfig`. */
  function FromConfig(s: Settings): Extras {
    Extras(
      VlanReservations(s.vlans) + s.lan.reservations + s.wifi.reservations, s.pxe.macImages, s.pxe.defaultImage,
      s.pxe.bootFile, s.pxe.legacyBootFile, s.pxe.uefiBootFile, s.pxe.ipxeScript, [], VlanAddresses(s.vlans), [])
  }

  // Boot options.

  function Or(s: string, fallback: string): string {
    if s == "" then fallback else s
  }

  /** The options `applyPXEBootOptions` gives a server. */
  function BootFor(server: Option<IP>, p: Pxe<Map>): Boot {
    var file := Or(Or(p.bootFile, p.defaultImage), "netboot.xyz.efi");
    Boot(server, file, Or(p.legacyBootFile, file), Or(p.uefiBootFile, "netboot.xyz.efi"),
         Or(p.ipxeScript, "boot.ipxe"), p.macImages)
  }
}
