/**
 The configuration in memory: a structure that holds references to maps and is
 changed in place. `settings` is the value it stands for; `slot` marks which
 scope a map belongs to, so that no two scopes share one.
 */
module RouterConfig {
  import opened Mac
  import opened MacMaps
  import opened ConfigValues

  const LAN := -1
  const WIFI := -2
  const IMAGES := -3

  class StrMap {
    var m: Map
    ghost const slot: int

    constructor (m: Map, ghost slot: int)
      ensures this.m == m && this.slot == slot
    {
      this.m, this.slot := m, slot;
    }
  }

  /** `cloneStringMap` of the main program: an equal map of its own, nil for nil. */
  method CloneStringMap(source: StrMap?, ghost slot: int) returns (copy: StrMap?)
    ensures source == null <==> copy == null
    ensures copy != null ==> fresh(copy) && copy.slot == slot && copy.m == source.m
  {
    if source == null {
      return null;
    }
    var out := map[];
    var todo := source.m.Keys;
    while todo != {}
      invariant todo <= source.m.Keys && out == source.m - todo
      decreases todo
    {
      var k :| k in todo;
      todo, out := todo - {k}, out[k := source.m[k]];
    }
    copy := new StrMap(out, slot);
  }

  /** A map with the given entries, nil when there are none. */
  method NewMap(m: Map, ghost slot: int) returns (p: StrMap?)
    ensures p == null <==> m == map[]
    ensures p != null ==> fresh(p) && p.slot == slot && p.m == m
  {
    if m == map[] {
      return null;
    }
    p := new StrMap(m, slot);
  }

  ghost predicate IsDecoded(v: Vlan<Map>, c: Vlan<StrMap?>, slot: int, maps: set<StrMap>)
    reads c.dhcp.reservations
  {
    && c == Vlan(v.id, v.address, Dhcp(c.dhcp.reservations, v.dhcp.dns, v.dhcp.pxeBootFile))
    && (c.dhcp.reservations == null ==> v.dhcp.reservations == map[])
    && (c.dhcp.reservations != null ==>
          && c.dhcp.reservations in maps && c.dhcp.reservations.slot == slot
          && c.dhcp.reservations.m == v.dhcp.reservations)
  }

  method NewVlans(decoded: seq<Vlan<Map>>) returns (vs: array<Vlan<StrMap?>>, ghost maps: set<StrMap>)
    ensures fresh(vs) && fresh(maps) && vs.Length == |decoded|
    ensures forall i :: 0 <= i < |decoded| ==> IsDecoded(decoded[i], vs[i], i, maps)
  {
    var blank: Vlan<StrMap?> := Vlan(0, "", Dhcp(null, [], ""));
    vs, maps := new Vlan<StrMap?>[|decoded|](_ => blank), {};
    for i := 0 to |decoded|
      invariant fresh(maps)
      invariant forall j :: 0 <= j < i ==> IsDecoded(decoded[j], vs[j], j, maps)
    {
      var v := decoded[i];
      var m := NewMap(v.dhcp.reservations, i);
      vs[i] := Vlan(v.id, v.address, Dhcp(m, v.dhcp.dns, v.dhcp.pxeBootFile));
      if m != null {
        maps := maps + {m};
      }
    }
  }

  ghost predicate IsCopy(v: Vlan<StrMap?>, c: Vlan<StrMap?>, slot: int, maps: set<StrMap>)
    reads v.dhcp.reservations, c.dhcp.reservations
  {
    && c == v.(dhcp := v.dhcp.(reservations := c.dhcp.reservations))
    && (c.dhcp.reservations == null <==> v.dhcp.reservations == null)
    && (c.dhcp.reservations != null ==>
          && c.dhcp.reservations in maps && c.dhcp.reservations.slot == slot
          && c.dhcp.reservations.m == v.dhcp.reservations.m)
  }

  method CloneVlans(source: array<Vlan<StrMap?>>) returns (copy: array<Vlan<StrMap?>>, ghost maps: set<StrMap>)
    ensures fresh(copy) && fresh(maps) && copy.Length == source.Length
    ensures forall i :: 0 <= i < source.Length ==> IsCopy(source[i], copy[i], i, maps)
  {
    var blank: Vlan<StrMap?> := Vlan(0, "", Dhcp(null, [], ""));
    copy, maps := new Vlan<StrMap?>[source.Length](_ => blank), {};
    for i := 0 to source.Length
      invariant fresh(maps)
      invariant forall j :: 0 <= j < i ==> IsCopy(source[j], copy[j], j, maps)
    {
      var m := CloneStringMap(source[i].dhcp.reservations, i);
      copy[i] := source[i].(dhcp := source[i].dhcp.(reservations := m));
      if m != null {
        maps := maps + {m};
      }
    }
  }

  /** `cloneStringMap` of the config package: normalises every key. */
  method NormalizedCopy(source: Map, ghost slot: int) returns (copy: StrMap)
    ensures fresh(copy) && copy.slot == slot && Overlay(map[], source, copy.m)
  {
    var out := map[];
    var todo := source.Keys;
    AllKeys(map[], source, out);
    while todo != {}
      invariant todo <= source.Keys && Overlay(map[], source - todo, out)
      decreases todo
    {
      var k :| k in todo;
      NextKey(map[], source, todo, k, out);
      todo, out := todo - {k}, out[Normalize(k) := source[k]];
    }
    AllKeys(map[], source, out);
    copy := new StrMap(out, slot);
  }

  /** The entries of a map that may be nil. */
  function Entries(p: StrMap?): Map
    reads p
  {
    if p == null then map[] else p.m
  }

  /** Copies every entry of a map into another. */
  method CopyInto(target: Map, source: Map) returns (result: Map)
    ensures result == target + source
  {
    result := target;
    var todo := source.Keys;
    while todo != {}
      invariant todo <= source.Keys && result == target + (source - todo)
      decreases todo
    {
      var k :| k in todo;
      todo, result := todo - {k}, result[k := source[k]];
    }
    assert source - todo == source;
  }

  /** Adds a reservation to a scope, which gets a map if it has none. */
  method Put(d: Dhcp<StrMap?>, mac: string, ip: string, ghost slot: int) returns (d': Dhcp<StrMap?>)
    modifies d.reservations
    ensures d'.reservations != null && d'.dns == d.dns && d'.pxeBootFile == d.pxeBootFile
    ensures if d.reservations == null
            then
              && fresh(d'.reservations) && d'.reservations.slot == slot
              && d'.reservations.m == map[Normalize(mac) := ip]
            else d'.reservations == d.reservations && d'.reservations.m == old(d.reservations.m)[Normalize(mac) := ip]
  {
    d' := d;
    if d'.reservations == null {
      var own := new StrMap(map[], slot);
      d' := d'.(reservations := own);
    }
    d'.reservations.m := d'.reservations.m[Normalize(mac) := ip];
  }

  // One extra reservation, as values.

  function PutValue(d: Dhcp<Map>, mac: string, ip: string): Dhcp<Map> {
    d.(reservations := d.reservations[Normalize(mac) := ip])
  }

  function ReserveLan(net: Net, s: Settings, mac: string, ip: string): Dhcp<Map> {
    if s.lanAddress != "" && Inside(net, s.lanAddress, ip) then PutValue(s.lan, mac, ip) else s.lan
  }

  function ReserveVlan(net: Net, v: Vlan<Map>, mac: string, ip: string): Vlan<Map> {
    if Inside(net, v.address, ip) then v.(dhcp := PutValue(v.dhcp, mac, ip)) else v
  }

  function Reserve(net: Net, s: Settings, mac: string, ip: string): Settings {
    s.(lan := ReserveLan(net, s, mac, ip),
       vlans := seq(|s.vlans|, i requires 0 <= i < |s.vlans| => ReserveVlan(net, s.vlans[i], mac, ip)))
  }

  /** The reservations of the extras are in, except those under keys still to come. */
  ghost predicate Reserving(net: Net, s: Settings, x: Extras, todo: set<string>, s': Settings) {
    && s' == s.(lan := s'.lan, vlans := s'.vlans)
    && s'.lan == s.lan.(reservations := s'.lan.reservations)
    && Overlay(s.lan.reservations, LanEntries(net, s, x) - todo, s'.lan.reservations)
    && |s'.vlans| == |s.vlans|
    && forall i :: 0 <= i < |s.vlans| ==> ReservingVlan(net, s.vlans[i], x, todo, s'.vlans[i])
  }

  ghost predicate ReservingVlan(net: Net, v: Vlan<Map>, x: Extras, todo: set<string>, v': Vlan<Map>) {
    && v' == v.(dhcp := v.dhcp.(reservations := v'.dhcp.reservations))
    && Overlay(v.dhcp.reservations, Within(net, v.address, x.reservations) - todo, v'.dhcp.reservations)
  }

  lemma ReservingStarts(net: Net, s: Settings, x: Extras)
    ensures Reserving(net, s, x, x.reservations.Keys, s)
  {
  }

  lemma ReservingVlanStep(net: Net, v: Vlan<Map>, x: Extras, todo: set<string>, v': Vlan<Map>, mac: string)
    requires ReservingVlan(net, v, x, todo, v') && mac in todo && mac in x.reservations
    ensures ReservingVlan(net, v, x, todo - {mac}, ReserveVlan(net, v', mac, x.reservations[mac]))
  {
    NextKey(v.dhcp.reservations, Within(net, v.address, x.reservations), todo, mac, v'.dhcp.reservations);
  }

  lemma ReservingStep(net: Net, s: Settings, x: Extras, todo: set<string>, s': Settings, mac: string)
    requires Reserving(net, s, x, todo, s') && mac in todo && mac in x.reservations
    ensures Reserving(net, s, x, todo - {mac}, Reserve(net, s', mac, x.reservations[mac]))
  {
    NextKey(s.lan.reservations, LanEntries(net, s, x), todo, mac, s'.lan.reservations);
    forall i | 0 <= i < |s.vlans|
      ensures ReservingVlan(net, s.vlans[i], x, todo - {mac}, ReserveVlan(net, s'.vlans[i], mac, x.reservations[mac]))
    {
      ReservingVlanStep(net, s.vlans[i], x, todo, s'.vlans[i], mac);
    }
  }

  // The overrides, as values.

  function BootedScope(d: Dhcp<Map>, x: Extras): Dhcp<Map> {
    d.(pxeBootFile := x.pxeBootFile)
  }

  function Booted(s: Settings, x: Extras, macImages: Map): Settings {
    s.(pxe := Pxe(s.pxe.enabled, s.pxe.bootFile, x.defaultImage,
                  x.legacyBootFile, x.uefiBootFile, x.ipxeScript, macImages),
       lan := BootedScope(s.lan, x), wifi := BootedScope(s.wifi, x),
       vlans := seq(|s.vlans|, i requires 0 <= i < |s.vlans| => s.vlans[i].(dhcp := BootedScope(s.vlans[i].dhcp, x))))
  }

  function Readdressed(s: Settings, addresses: map<int, string>): Settings {
    s.(vlans := seq(|s.vlans|, i requires 0 <= i < |s.vlans| =>
      s.vlans[i].(address := Override(s.vlans, addresses, i))))
  }

  function NamedScope(d: Dhcp<Map>, x: Extras): Dhcp<Map> {
    d.(dns := DnsOr(x, d.dns))
  }

  function Named(s: Settings, x: Extras): Settings {
    s.(lan := NamedScope(s.lan, x), wifi := NamedScope(s.wifi, x),
       vlans := seq(|s.vlans|, i requires 0 <= i < |s.vlans| => s.vlans[i].(dhcp := NamedScope(s.vlans[i].dhcp, x))))
  }

  /** The four parts of the merge make up the whole. */
  lemma PartsMakeApplied(net: Net, s: Settings, x: Extras, merged: Settings, macImages: Map)
    requires Reserving(net, s, x, {}, merged) && Overlay(map[], x.macImages, macImages)
    ensures Applied(net, s, x, Named(Readdressed(Booted(merged, x, macImages), x.vlanAddresses), x))
  {
    var s' := Named(Readdressed(Booted(merged, x, macImages), x.vlanAddresses), x);
    AllKeys(s.lan.reservations, LanEntries(net, s, x), merged.lan.reservations);
    OverlayNothing(s.wifi.reservations);
    forall i | 0 <= i < |s.vlans|
      ensures VlanApplied(net, s.vlans, x, i, s'.vlans[i])
    {
      assert ReservingVlan(net, s.vlans[i], x, {}, merged.vlans[i]);
      AllKeys(s.vlans[i].dhcp.reservations, Within(net, s.vlans[i].address, x.reservations),
          merged.vlans[i].dhcp.reservations);
      SameOverride(s.vlans, Booted(merged, x, macImages).vlans, x.vlanAddresses, i);
    }
  }

  lemma SameOverride(vlans: seq<Vlan<Map>>, vlans': seq<Vlan<Map>>, addresses: map<int, string>, i: nat)
    requires |vlans| == |vlans'| && i < |vlans|
    requires forall j :: 0 <= j < |vlans| ==> vlans[j].id == vlans'[j].id && vlans[j].address == vlans'[j].address
    ensures Override(vlans, addresses, i) == Override(vlans', addresses, i)
  {
  }

  lemma ReaddressedStep(s0: Settings, addresses: map<int, string>, todo: set<int>, id: int, s: Settings, s': Settings)
    requires id in todo && todo <= addresses.Keys && s == Readdressed(s0, addresses - todo)
    requires |s'.vlans| == |s.vlans| && s' == s.(vlans := s'.vlans)
    requires forall i :: 0 <= i < |s.vlans| ==>
               s'.vlans[i] ==
               if s.vlans[i].id == id && IsFirst(s.vlans, i) then s.vlans[i].(address := addresses[id]) else s.vlans[i]
    ensures s' == Readdressed(s0, addresses - (todo - {id}))
  {
    var t := Readdressed(s0, addresses - (todo - {id}));
    forall i | 0 <= i < |s.vlans|
      ensures s'.vlans[i] == t.vlans[i]
    {
      assert forall j :: 0 <= j < |s.vlans| ==> s.vlans[j].id == s0.vlans[j].id;
      assert IsFirst(s.vlans, i) <==> IsFirst(s0.vlans, i);
    }
    assert s'.vlans == t.vlans;
  }

  class Config {
    const lanAddress: string
    var lan: Dhcp<StrMap?>
    var wifi: Dhcp<StrMap?>
    const vlans: array<Vlan<StrMap?>>
    var pxe: Pxe<StrMap?>
    ghost var maps: set<StrMap>
    ghost var settings: Settings

    ghost predicate Holds(p: StrMap?, slot: int, m: Map)
      reads this`maps, maps
    {
      if p == null then m == map[] else p in maps && p.slot == slot && p.m == m
    }

    ghost predicate HoldsDhcp(d: Dhcp<StrMap?>, slot: int, v: Dhcp<Map>)
      reads this`maps, maps
    {
      Holds(d.reservations, slot, v.reservations) && d.dns == v.dns && d.pxeBootFile == v.pxeBootFile
    }

    ghost predicate HoldsVlan(d: Vlan<StrMap?>, slot: int, v: Vlan<Map>)
      reads this`maps, maps
    {
      d.id == v.id && d.address == v.address && HoldsDhcp(d.dhcp, slot, v.dhcp)
    }

    ghost predicate HoldsPxe(p: Pxe<StrMap?>, v: Pxe<Map>)
      reads this`maps, maps
    {
      && Holds(p.macImages, IMAGES, v.macImages)
      && v == Pxe(p.enabled, p.bootFile, p.defaultImage, p.legacyBootFile, p.uefiBootFile, p.ipxeScript, v.macImages)
    }

    /** The structure stands for `settings`, and no two scopes share a map. */
    ghost predicate Valid()
      reads this, vlans, maps
    {
      && settings.lanAddress == lanAddress
      && HoldsDhcp(lan, LAN, settings.lan)
      && HoldsDhcp(wifi, WIFI, settings.wifi)
      && HoldsPxe(pxe, settings.pxe)
      && |settings.vlans| == vlans.Length
      && forall i :: 0 <= i < vlans.Length ==> HoldsVlan(vlans[i], i, settings.vlans[i])
    }

    /** A configuration as decoded: every scope with a map of its own, or none. */
    constructor Decode(decoded: Settings)
      ensures Valid() && settings == decoded && fresh(vlans) && fresh(maps)
    {
      var lanMap := NewMap(decoded.lan.reservations, LAN);
      var wifiMap := NewMap(decoded.wifi.reservations, WIFI);
      var vs, ms := NewVlans(decoded.vlans);
      var imageMap := NewMap(decoded.pxe.macImages, IMAGES);
      lanAddress, vlans := decoded.lanAddress, vs;
      lan := Dhcp(lanMap, decoded.lan.dns, decoded.lan.pxeBootFile);
      wifi := Dhcp(wifiMap, decoded.wifi.dns, decoded.wifi.pxeBootFile);
      pxe := Pxe(decoded.pxe.enabled, decoded.pxe.bootFile, decoded.pxe.defaultImage,
                 decoded.pxe.legacyBootFile, decoded.pxe.uefiBootFile, decoded.pxe.ipxeScript, imageMap);
      maps := ms + (if lanMap == null then {} else {lanMap}) + (if wifiMap == null then {} else {wifiMap})
              + if imageMap == null then {} else {imageMap};
      settings := decoded;
      new;
      forall i | 0 <= i < vlans.Length
        ensures HoldsVlan(vlans[i], i, settings.vlans[i])
      {
        assert IsDecoded(decoded.vlans[i], vs[i], i, ms);
      }
    }

    /** `cloneConfig`: every map the program may change is copied. */
    constructor Clone(c: Config)
      requires c.Valid()
      ensures Valid() && settings == c.settings && fresh(vlans) && fresh(maps)
    {
      var lanMap := CloneStringMap(c.lan.reservations, LAN);
      var wifiMap := CloneStringMap(c.wifi.reservations, WIFI);
      var vs, ms := CloneVlans(c.vlans);
      var imageMap := CloneStringMap(c.pxe.macImages, IMAGES);
      lanAddress, vlans := c.lanAddress, vs;
      lan, wifi, pxe := c.lan.(reservations := lanMap), c.wifi.(reservations := wifiMap), c.pxe.(macImages := imageMap);
      maps := ms + (if lanMap == null then {} else {lanMap}) + (if wifiMap == null then {} else {wifiMap})
              + if imageMap == null then {} else {imageMap};
      settings := c.settings;
      new;
      forall i | 0 <= i < vlans.Length
        ensures HoldsVlan(vlans[i], i, settings.vlans[i])
      {
        assert c.HoldsVlan(c.vlans[i], i, c.settings.vlans[i]);
        assert IsCopy(c.vlans[i], vs[i], i, ms);
      }
    }

    method ReserveInVlan(net: Net, i: nat, mac: string, ip: string)
      requires Valid() && i < vlans.Length
      modifies vlans, this`maps, this`settings, maps
      ensures Valid() && fresh(maps - old(maps)) && old(maps) <= maps
      ensures settings ==
              old(settings).(vlans := old(settings).vlans[i := ReserveVlan(net, old(settings).vlans[i], mac, ip)])
    {
      if Inside(net, vlans[i].address, ip) {
        ghost var value := ReserveVlan(net, settings.vlans[i], mac, ip);
        assert HoldsVlan(vlans[i], i, settings.vlans[i]);
        var d := Put(vlans[i].dhcp, mac, ip, i);
        maps := maps + {d.reservations};
        vlans[i] := vlans[i].(dhcp := d);
        settings := settings.(vlans := settings.vlans[i := value]);
        assert HoldsVlan(vlans[i], i, value);
      } else {
        assert settings.vlans[i := settings.vlans[i]] == settings.vlans;
      }
    }

    method ReserveInLan(net: Net, mac: string, ip: string)
      requires Valid()
      modifies this`lan, this`maps, this`settings, maps
      ensures Valid() && fresh(maps - old(maps)) && old(maps) <= maps
      ensures settings == old(settings).(lan := ReserveLan(net, old(settings), mac, ip))
    {
      if lanAddress != "" && Inside(net, lanAddress, ip) {
        var d := Put(lan, mac, ip, LAN);
        lan := d;
        maps := maps + {d.reservations};
        settings := settings.(lan := ReserveLan(net, settings, mac, ip));
      }
    }

    method ReserveEverywhere(net: Net, mac: string, ip: string)
      requires Valid()
      modifies this, vlans, maps
      ensures Valid() && fresh(maps - old(maps)) && old(maps) <= maps
      ensures settings == Reserve(net, old(settings), mac, ip)
    {
      ghost var target := Reserve(net, settings, mac, ip);
      ghost var before := settings.vlans;
      ReserveInLan(net, mac, ip);
      for i := 0 to vlans.Length
        invariant Valid() && fresh(maps - old(maps)) && old(maps) <= maps
        invariant settings == target.(vlans := settings.vlans)
        invariant forall j :: 0 <= j < i ==> settings.vlans[j] == target.vlans[j]
        invariant forall j :: i <= j < vlans.Length ==> settings.vlans[j] == before[j]
      {
        ReserveInVlan(net, i, mac, ip);
      }
      assert settings.vlans == target.vlans;
    }

    method MergeReservations(net: Net, x: Extras)
      requires Valid()
      modifies this, vlans, maps
      ensures Valid() && fresh(maps - old(maps)) && old(maps) <= maps
      ensures Reserving(net, old(settings), x, {}, settings)
    {
      var todo := x.reservations.Keys;
      ReservingStarts(net, settings, x);
      while todo != {}
        invariant Valid() && fresh(maps - old(maps)) && old(maps) <= maps
        invariant todo <= x.reservations.Keys && Reserving(net, old(settings), x, todo, settings)
        decreases todo
      {
        var mac :| mac in todo;
        ReservingStep(net, old(settings), x, todo, settings, mac);
        todo := todo - {mac};
        ReserveEverywhere(net, mac, x.reservations[mac]);
      }
    }

    /** PXE settings and the boot file of every scope are replaced. */
    method ReplaceBoot(x: Extras)
      requires Valid()
      modifies this, vlans
      ensures Valid() && fresh(maps - old(maps)) && old(maps) <= maps
      ensures Overlay(map[], x.macImages, settings.pxe.macImages)
      ensures settings == Booted(old(settings), x, settings.pxe.macImages)
    {
      var images := NormalizedCopy(x.macImages, IMAGES);
      pxe := Pxe(pxe.enabled, pxe.bootFile, x.defaultImage, x.legacyBootFile, x.uefiBootFile, x.ipxeScript, images);
      maps, settings := maps + {images}, settings.(pxe := Booted(settings, x, images.m).pxe);
      ReplaceBootFiles(x);
    }

    method ReplaceBootFiles(x: Extras)
      requires Valid()
      modifies this`lan, this`wifi, this`settings, vlans
      ensures Valid() && settings == Booted(old(settings), x, old(settings).pxe.macImages).(pxe := old(settings).pxe)
    {
      ghost var target := Booted(settings, x, map[]);
      for i := 0 to vlans.Length
        invariant Valid() && settings == old(settings).(vlans := settings.vlans)
        invariant forall j :: 0 <= j < i ==> settings.vlans[j] == target.vlans[j]
        invariant forall j :: i <= j < vlans.Length ==> settings.vlans[j] == old(settings).vlans[j]
      {
        SetVlan(i, vlans[i].(dhcp := vlans[i].dhcp.(pxeBootFile := x.pxeBootFile)), target.vlans[i]);
      }
      SetScopes(lan.(pxeBootFile := x.pxeBootFile), wifi.(pxeBootFile := x.pxeBootFile), target.lan, target.wifi);
      assert settings.vlans == target.vlans;
    }

    /** Stores a VLAN that keeps its map of reservations. */
    method SetVlan(i: nat, v: Vlan<StrMap?>, ghost value: Vlan<Map>)
      requires Valid() && i < vlans.Length && HoldsVlan(v, i, value)
      modifies vlans, this`settings
      ensures Valid() && settings == old(settings).(vlans := old(settings).vlans[i := value])
    {
      vlans[i] := v;
      settings := settings.(vlans := settings.vlans[i := value]);
    }

    method SetScopes(l: Dhcp<StrMap?>, w: Dhcp<StrMap?>, ghost lanValue: Dhcp<Map>, ghost wifiValue: Dhcp<Map>)
      requires Valid() && HoldsDhcp(l, LAN, lanValue) && HoldsDhcp(w, WIFI, wifiValue)
      modifies this`lan, this`wifi, this`settings
      ensures Valid() && settings == old(settings).(lan := lanValue, wifi := wifiValue)
    {
      wifi := w;
      lan := l;
      settings := settings.(lan := lanValue, wifi := wifiValue);
    }

    /** The inner loop: only the first VLAN with the number is changed. */
    method OverrideAddress(id: int, address: string)
      requires Valid()
      modifies vlans, this`settings
      ensures Valid() && |settings.vlans| == |old(settings).vlans|
      ensures settings == old(settings).(vlans := settings.vlans)
      ensures forall i :: 0 <= i < |settings.vlans| ==>
                settings.vlans[i] == if old(settings).vlans[i].id == id && IsFirst(old(settings).vlans, i)
                                     then old(settings).vlans[i].(address := address) else old(settings).vlans[i]
    {
      for i := 0 to vlans.Length
        invariant Valid() && settings == old(settings)
        invariant forall j :: 0 <= j < i ==> settings.vlans[j].id != id
      {
        if vlans[i].id == id {
          SetVlan(i, vlans[i].(address := address), settings.vlans[i].(address := address));
          break;
        }
      }
    }

    method OverrideAddresses(addresses: map<int, string>)
      requires Valid()
      modifies vlans, this`settings
      ensures Valid() && settings == Readdressed(old(settings), addresses)
    {
      var todo := addresses.Keys;
      assert settings.vlans == Readdressed(settings, addresses - todo).vlans;
      while todo != {}
        invariant Valid() && todo <= addresses.Keys && settings == Readdressed(old(settings), addresses - todo)
        decreases todo
      {
        assert (exists k: int :: k in todo) || todo == {};
        var id :| id in todo;
        ghost var before, s := todo, settings;
        todo := todo - {id};
        OverrideAddress(id, addresses[id]);
        ReaddressedStep(old(settings), addresses, before, id, s, settings);
      }
      assert addresses - todo == addresses;
    }

    method OverrideDns(x: Extras)
      requires Valid()
      modifies this`lan, this`wifi, this`settings, vlans
      ensures Valid() && settings == Named(old(settings), x)
    {
      ghost var target := Named(settings, x);
      if |x.dns| == 0 {
        assert settings.vlans == target.vlans;
        return;
      }
      for i := 0 to vlans.Length
        invariant Valid() && settings == old(settings).(vlans := settings.vlans)
        invariant forall j :: 0 <= j < i ==> settings.vlans[j] == target.vlans[j]
        invariant forall j :: i <= j < vlans.Length ==> settings.vlans[j] == old(settings).vlans[j]
      {
        SetVlan(i, vlans[i].(dhcp := vlans[i].dhcp.(dns := x.dns)), target.vlans[i]);
      }
      SetScopes(lan.(dns := x.dns), wifi.(dns := x.dns), target.lan, target.wifi);
      assert settings.vlans == target.vlans;
    }

    method ApplyExtras(net: Net, x: Extras)
      requires Valid()
      modifies this, vlans, maps
      ensures Valid() && fresh(maps - old(maps))
      ensures Applied(net, old(settings), x, settings)
    {
      MergeReservations(net, x);
      ghost var merged := settings;
      ReplaceBoot(x);
      ghost var macImages := settings.pxe.macImages;
      OverrideAddresses(x.vlanAddresses);
      OverrideDns(x);
      PartsMakeApplied(net, old(settings), x, merged, macImages);
    }

    method ExtrasFromConfig() returns (x: Extras)
      requires Valid()
      ensures x == FromConfig(settings)
    {
      var reservations: Map, addresses := map[], map[];
      for i := 0 to vlans.Length
        invariant reservations == VlanReservations(settings.vlans[..i])
      {
        assert settings.vlans[..i + 1][..i] == settings.vlans[..i];
        assert HoldsVlan(vlans[i], i, settings.vlans[i]);
        reservations := CopyInto(reservations, Entries(vlans[i].dhcp.reservations));
      }
      assert settings.vlans[..vlans.Length] == settings.vlans;
      reservations := CopyInto(reservations, Entries(lan.reservations));
      reservations := CopyInto(reservations, Entries(wifi.reservations));
      var images := CopyInto(map[], Entries(pxe.macImages));
      for i := 0 to vlans.Length
        invariant addresses == VlanAddresses(settings.vlans[..i])
      {
        assert settings.vlans[..i + 1][..i] == settings.vlans[..i];
        assert HoldsVlan(vlans[i], i, settings.vlans[i]);
        addresses := addresses[vlans[i].id := vlans[i].address];
      }
      x := Extras(reservations, images, pxe.defaultImage, pxe.bootFile,
                  pxe.legacyBootFile, pxe.uefiBootFile, pxe.ipxeScript, [], addresses, []);
    }
  }
}
