/**
 The reload itself, on the configuration in memory and the running servers.
 `Reload` is proved to make the step of `ReloadRuns`.
 */
module Reloader {
  import opened Common
  import opened Ipv4
  import opened DhcpServer
  import opened MacMaps
  import opened SmbUsers
  import opened ConfigValues
  import opened RouterConfig
  import opened ReloadRuns
  import opened ReloadFiles

  /** A running DHCP server, its boot server address and its scope in the base configuration. */
  datatype Entry = Entry(srv: Server, tftpAddr: string, scope: Scope)

  ghost function InfoOf(e: Entry): Info {
    Info(e.scope, e.tftpAddr, e.srv.serverIP, e.srv.subnetSize)
  }

  ghost function StateOf(srv: Server): ServerState
    reads srv
  {
    ServerState(srv.reservations, srv.boot)
  }

  /** Reservations as `SetReservations` parses them. */
  function Parsed(net: Net, m: Map): map<string, Option<IP>> {
    map mac | mac in m :: net.parse(m[mac])
  }

  lemma SameAdmission(e: Entry, net: Net, m: Map)
    requires e.srv.subnetSize > 0
    ensures e.srv.AdmittedOf(Parsed(net, m)) == AdmittedBy(net, InfoOf(e), m)
  {
  }

  /** The first k servers have been dealt with. */
  ghost predicate FirstReloaded(
    net: Net, infos: seq<Info>, base: Settings, pxe: Pxe<Map>, x: Extras,
    before: seq<ServerState>, after: seq<ServerState>, k: nat)
    requires k <= |infos| && k <= |before| && k <= |after|
  {
    k > 0 ==>
      && FirstReloaded(net, infos, base, pxe, x, before, after, k - 1)
      && ServerReloaded(net, infos[k - 1], base, pxe, x, before[k - 1], after[k - 1])
  }

  lemma {:induction false} FirstReloadedExtends(
    net: Net, infos: seq<Info>, base: Settings, pxe: Pxe<Map>, x: Extras,
    before: seq<ServerState>, after: seq<ServerState>,
    v: ServerState, k: nat)
    requires k <= |infos| && k <= |before| && k < |after| && FirstReloaded(net, infos, base, pxe, x, before, after, k)
    ensures FirstReloaded(net, infos, base, pxe, x, before, after[k := v], k)
  {
    FirstReloadedElsewhere(net, infos, base, pxe, x, before, after, after[k := v], k);
  }

  lemma {:induction false} FirstReloadedElsewhere(
    net: Net, infos: seq<Info>, base: Settings, pxe: Pxe<Map>, x: Extras,
    before: seq<ServerState>, after: seq<ServerState>,
    after': seq<ServerState>, k: nat)
    requires k <= |infos| && k <= |before| && k <= |after| && k <= |after'|
    requires forall i :: 0 <= i < k ==> after[i] == after'[i]
    requires FirstReloaded(net, infos, base, pxe, x, before, after, k)
    ensures FirstReloaded(net, infos, base, pxe, x, before, after', k)
  {
    if k > 0 {
      FirstReloadedElsewhere(net, infos, base, pxe, x, before, after, after', k - 1);
    }
  }

  lemma {:induction false} FirstReloadedAt(
    net: Net, infos: seq<Info>, base: Settings, pxe: Pxe<Map>, x: Extras,
    before: seq<ServerState>, after: seq<ServerState>,
    i: nat, k: nat)
    requires i < k <= |infos| && k <= |before| && k <= |after|
    requires FirstReloaded(net, infos, base, pxe, x, before, after, k)
    ensures ServerReloaded(net, infos[i], base, pxe, x, before[i], after[i])
  {
    if i < k - 1 {
      FirstReloadedAt(net, infos, base, pxe, x, before, after, i, k - 1);
    }
  }

  /** What `Accept` shows of a reload that needs no restart. */
  ghost predicate Accepted(setup: Setup, s: State, x: Extras, s': State) {
    && Applied(setup.net, s.live, x, s'.live) && s'.base == s.base
    && |s'.servers| == |s.servers| == |setup.infos|
    && FirstReloaded(setup.net, setup.infos, s.base, s'.live.pxe, x, s.servers, s'.servers, |s.servers|)
    && ImagesReloaded(s.images, x, s'.images)
  }

  lemma AcceptedMakesNext(setup: Setup, s: State, read: Read, s': State)
    requires Proper(setup, s) && setup.extrasPath != ""
    requires !RestartRequired(s.live.vlans, setup.users, ExtrasOf(s.live, read))
    requires Accepted(setup, s, ExtrasOf(s.live, read), s')
    ensures Next(setup, s, read, Reloaded(ExtrasOf(s.live, read)), s')
  {
    var x := ExtrasOf(s.live, read);
    forall i | 0 <= i < |s.servers|
      ensures ServerReloaded(setup.net, setup.infos[i], s.base, s'.live.pxe, x, s.servers[i], s'.servers[i])
    {
      FirstReloadedAt(setup.net, setup.infos, s.base, s'.live.pxe, x, s.servers, s'.servers, i, |s.servers|);
    }
  }

  /** The part of the TFTP server that a reload sets. */
  class TftpImages {
    var macImages: Map
    var defaultImage: string

    constructor (macImages: Map, defaultImage: string)
      ensures this.macImages == macImages && this.defaultImage == defaultImage
    {
      this.macImages, this.defaultImage := macImages, defaultImage;
    }

    method SetImages(images: Map, defaultImage: string)
      modifies this
      ensures Overlay(map[], images, macImages) && this.defaultImage == defaultImage
    {
      var copy := NormalizedCopy(images, IMAGES);
      macImages := copy.m;
      this.defaultImage := defaultImage;
    }
  }

  /** `mergedReservations`: extras win. */
  method MergedReservations(base: Map, extras: Map) returns (merged: Map)
    ensures merged == base + extras
  {
    merged := CopyInto(map[], base);
    merged := CopyInto(merged, extras);
  }

  /** `applyPXEBootOptions`. */
  method ApplyPXEBootOptions(srv: Server, enabled: bool, tftp: Option<IP>, macImages: Map, pxe: Pxe<StrMap?>)
    modifies srv`boot
    ensures !enabled ==> srv.boot == old(srv.boot)
    ensures enabled ==>
              && Overlay(map[], macImages, srv.boot.macFiles)
              && srv.boot == BootFor(tftp, Pxe(enabled, pxe.bootFile, pxe.defaultImage,
                                               pxe.legacyBootFile, pxe.uefiBootFile, pxe.ipxeScript, srv.boot.macFiles))
  {
    if !enabled {
      return;
    }
    var bootFile := pxe.bootFile;
    if bootFile == "" && pxe.defaultImage != "" {
      bootFile := pxe.defaultImage;
    }
    if bootFile == "" {
      bootFile := "netboot.xyz.efi";
    }
    var legacy := pxe.legacyBootFile;
    if legacy == "" {
      legacy := bootFile;
    }
    var uefi := pxe.uefiBootFile;
    if uefi == "" {
      uefi := "netboot.xyz.efi";
    }
    var ipxe := pxe.ipxeScript;
    if ipxe == "" {
      ipxe := "boot.ipxe";
    }
    srv.SetPXEOptions(tftp, bootFile);
    srv.SetBootFiles(legacy, uefi, ipxe);
    srv.SetMacPXEBootFiles(macImages);
  }

  /** The first VLAN with the number has another address. */
  ghost predicate Differs(vlans: seq<Vlan<Map>>, id: int, address: string) {
    exists i :: 0 <= i < |vlans| && vlans[i].id == id && IsFirst(vlans, i) && vlans[i].address != address
  }

  lemma MovesIffDiffers(vlans: seq<Vlan<Map>>, x: Extras)
    ensures Moves(vlans, x) <==> exists id :: id in x.vlanAddresses && Differs(vlans, id, x.vlanAddresses[id])
  {
  }

  /** At start-up the snapshot is taken before any extras are merged; the two share no map afterwards. */
  method TakeSnapshot(net: Net, live: Config, extras: Option<Extras>) returns (base: Config)
    requires live.Valid()
    modifies live, live.vlans, live.maps
    ensures fresh(base) && fresh(base.vlans) && fresh(base.maps) && base.Valid() && base.settings == old(live.settings)
    ensures fresh(live.maps - old(live.maps))
    ensures live.Valid() && base.vlans != live.vlans && live.maps !! base.maps
    ensures if extras.Some? then Applied(net, old(live.settings), extras.value, live.settings)
            else live.settings == old(live.settings)
    ensures FromBase(live.settings, base.settings)
  {
    base := new Config.Clone(live);
    if extras.Some? {
      live.ApplyExtras(net, extras.value);
    }
  }

  class Reloader {
    const net: Net
    const live: Config
    const base: Config
    const entries: seq<Entry>
    const images: TftpImages?
    const users: seq<User>
    const extrasPath: string
    ghost const servers: set<Server>

    ghost function Infos(): seq<Info> {
      seq(|entries|, i requires 0 <= i < |entries| => InfoOf(entries[i]))
    }

    ghost function TheSetup(): Setup {
      Setup(net, Infos(), users, extrasPath)
    }

    ghost predicate ServersFit()
      reads base, servers
    {
      && (forall i :: 0 <= i < |entries| ==>
            entries[i].srv in servers && entries[i].srv.Valid() && HasScope(base.settings, entries[i].scope))
      && forall i, j :: 0 <= i < j < |entries| ==> entries[i].srv != entries[j].srv
    }

    ghost predicate ConfigsFit()
      reads live, live.vlans, live.maps, base, base.vlans, base.maps
    {
      && live.Valid() && base.Valid()
      && live != base && live.vlans != base.vlans && live.maps !! base.maps
    }

    ghost predicate Valid()
      reads live, live.vlans, live.maps, base, base.vlans, base.maps, servers
    {
      ConfigsFit() && ServersFit()
    }

    ghost predicate Stand(states: seq<ServerState>)
      reads servers
    {
      |states| == |entries| &&
      forall i :: 0 <= i < |entries| ==> entries[i].srv in servers && states[i] == StateOf(entries[i].srv)
    }

    /** The program's state is s. */
    ghost predicate Stands(s: State)
      reads live, base, images, servers
    {
      && s.live == live.settings && s.base == base.settings
      && Stand(s.servers)
      && s.images == ImagesState()
    }

    ghost function ImagesState(): Option<Images>
      reads images
    {
      if images == null then None else Some(Images(images.macImages, images.defaultImage))
    }

    /** `live` is the configuration extras are merged into, and its clone the snapshot. */
    constructor (net: Net, live: Config, base: Config, entries: seq<Entry>, images: TftpImages?, users: seq<User>,
                 extrasPath: string)
      requires live.Valid() && base.Valid() && live != base && live.vlans != base.vlans && live.maps !! base.maps
      requires forall i :: 0 <= i < |entries| ==> entries[i].srv.Valid() && HasScope(base.settings, entries[i].scope)
      requires forall i, j :: 0 <= i < j < |entries| ==> entries[i].srv != entries[j].srv
      ensures Valid() && this.live == live && this.base == base && this.entries == entries && this.images == images
      ensures servers == set e | e in entries :: e.srv
      ensures TheSetup() == Setup(net, Infos(), users, extrasPath)
    {
      this.net, this.live, this.base, this.entries, this.images, this.users := net, live, base, entries, images, users;
      this.extrasPath := extrasPath;
      servers := set e | e in entries :: e.srv;
    }

    method CheckRestartRequired(x: Extras) returns (required: bool)
      requires Valid()
      ensures required <==> RestartRequired(live.settings.vlans, users, x)
    {
      MovesIffDiffers(live.settings.vlans, x);
      var todo := x.vlanAddresses.Keys;
      while todo != {}
        invariant todo <= x.vlanAddresses.Keys
        invariant forall id :: id in x.vlanAddresses && id !in todo ==>
                !Differs(live.settings.vlans, id, x.vlanAddresses[id])
        decreases todo
      {
        assert (exists k: int :: k in todo) || todo == {};
        var id :| id in todo;
        todo := todo - {id};
        var differs := FirstDiffers(id, x.vlanAddresses[id]);
        if differs {
          return true;
        }
      }
      var applied := SmbUsersKey(users);
      var wanted := SmbUsersKey(x.smbUsers);
      required := applied != wanted;
    }

    method FirstDiffers(id: int, address: string) returns (differs: bool)
      requires Valid()
      ensures differs <==> Differs(live.settings.vlans, id, address)
    {
      for i := 0 to live.vlans.Length
        invariant forall j :: 0 <= j < i ==> live.settings.vlans[j].id != id
      {
        assert live.HoldsVlan(live.vlans[i], i, live.settings.vlans[i]);
        if live.vlans[i].id == id {
          assert IsFirst(live.settings.vlans, i);
          return address != live.vlans[i].address;
        }
      }
      return false;
    }

    method ScopeReservations(scope: Scope) returns (m: Map)
      requires base.Valid() && HasScope(base.settings, scope)
      ensures m == ScopeOf(base.settings, scope).reservations
    {
      match scope
      case LanScope => m := Entries(base.lan.reservations);
      case WifiScope => m := Entries(base.wifi.reservations);
      case VlanScope(i) =>
        assert base.HoldsVlan(base.vlans[i], i, base.settings.vlans[i]);
        m := Entries(base.vlans[i].dhcp.reservations);
    }

    method SetReservations(e: Entry, x: Extras)
      requires base.Valid() && e.srv.Valid() && HasScope(base.settings, e.scope)
      modifies e.srv`reservations
      ensures e.srv.Valid()
      ensures Overlay(map[], AdmittedBy(net, InfoOf(e), ScopeOf(base.settings, e.scope).reservations + x.reservations),
                      e.srv.reservations)
    {
      var scoped := ScopeReservations(e.scope);
      var merged := MergedReservations(scoped, x.reservations);
      SameAdmission(e, net, merged);
      e.srv.SetReservations(Parsed(net, merged));
    }

    method SetBoot(e: Entry, x: Extras)
      requires live.Valid() && Overlay(map[], x.macImages, live.settings.pxe.macImages)
      modifies e.srv`boot
      ensures e.srv.boot == if live.settings.pxe.enabled then BootFor(BootServer(net, InfoOf(e)), live.settings.pxe)
              else old(e.srv.boot)
    {
      var tftp := if live.pxe.enabled && e.tftpAddr != "" then net.parse(e.tftpAddr) else None;
      ApplyPXEBootOptions(e.srv, live.pxe.enabled, tftp, Entries(live.pxe.macImages), live.pxe);
      if live.pxe.enabled {
        SecondOverlayCopies(x.macImages, live.settings.pxe.macImages, e.srv.boot.macFiles);
      }
    }

    method ConfigureServer(e: Entry, x: Extras, ghost v: ServerState) returns (ghost v': ServerState)
      requires live.Valid() && Overlay(map[], x.macImages, live.settings.pxe.macImages)
      requires base.Valid() && e.srv.Valid() && HasScope(base.settings, e.scope) && v == StateOf(e.srv)
      modifies e.srv`reservations, e.srv`boot
      ensures e.srv.Valid() && v' == StateOf(e.srv)
      ensures ServerReloaded(net, InfoOf(e), base.settings, live.settings.pxe, x, v, v')
    {
      SetReservations(e, x);
      SetBoot(e, x);
      v' := StateOf(e.srv);
    }

    method ConfigureNext(x: Extras, k: nat, ghost states: seq<ServerState>) returns (ghost v: ServerState)
      requires Valid() && Overlay(map[], x.macImages, live.settings.pxe.macImages)
      requires k < |entries| && Stand(states)
      modifies servers
      ensures Valid() && Stand(states[k := v])
      ensures ServerReloaded(net, Infos()[k], base.settings, live.settings.pxe, x, states[k], v)
    {
      v := ConfigureServer(entries[k], x, states[k]);
      assert Infos()[k] == InfoOf(entries[k]);
      assert forall i :: 0 <= i < |entries| && i != k ==> entries[i].srv != entries[k].srv;
    }

    method ConfigureServers(x: Extras, ghost before: seq<ServerState>) returns (ghost after: seq<ServerState>)
      requires Valid() && Stand(before) && Overlay(map[], x.macImages, live.settings.pxe.macImages)
      modifies servers
      ensures Valid() && Stand(after)
      ensures FirstReloaded(net, Infos(), base.settings, live.settings.pxe, x, before, after, |entries|)
    {
      after := before;
      for k := 0 to |entries|
        invariant Valid() && Stand(after)
        invariant forall i :: k <= i < |entries| ==> after[i] == before[i]
        invariant FirstReloaded(net, Infos(), base.settings, live.settings.pxe, x, before, after, k)
      {
        ghost var v := ConfigureNext(x, k, after);
        FirstReloadedExtends(net, Infos(), base.settings, live.settings.pxe, x, before, after, v, k);
        after := after[k := v];
      }
    }

    method ApplyToLive(x: Extras)
      requires Valid()
      modifies live, live.vlans, live.maps
      ensures Valid() && base.settings == old(base.settings) && fresh(live.maps - old(live.maps))
      ensures Applied(net, old(live.settings), x, live.settings)
      ensures forall states :: old(Stand(states)) ==> Stand(states)
    {
      live.ApplyExtras(net, x);
    }

    method SetImages(x: Extras)
      requires Valid()
      modifies images
      ensures Valid() && forall states :: old(Stand(states)) ==> Stand(states)
      ensures ImagesReloaded(old(ImagesState()), x, ImagesState())
    {
      if images != null {
        images.SetImages(x.macImages, x.defaultImage);
      }
    }

    /** A reload that needs no restart. */
    method Accept(x: Extras, ghost s: State) returns (ghost s': State)
      requires Valid() && Stands(s)
      modifies live, live.vlans, live.maps, images, servers
      ensures Valid() && Stands(s') && fresh(live.maps - old(live.maps))
      ensures Accepted(TheSetup(), s, x, s')
    {
      ApplyToLive(x);
      ghost var states := ConfigureServers(x, s.servers);
      SetImages(x);
      s' := State(live.settings, base.settings, states, ImagesState());
    }

    /** `loadOrCreateExtras`, and no extras when it fails. */
    method LoadExtras(read: Read) returns (x: Extras)
      requires live.Valid()
      ensures x == ExtrasOf(live.settings, read)
    {
      match read {
        case Loaded(extras) => x := extras;
        case Absent(created) =>
          x := NO_EXTRAS;
          if created {
            x := live.ExtrasFromConfig();
          }
        case Broken => x := NO_EXTRAS;
      }
    }

    /** `Reload`, with what reading the file gave. */
    method Reload(read: Read, ghost s: State) returns (out: Outcome, ghost s': State)
      requires Valid() && Stands(s)
      modifies live, live.vlans, live.maps, images, servers
      ensures Valid() && Stands(s') && Proper(TheSetup(), s) && fresh(live.maps - old(live.maps))
      ensures Next(TheSetup(), s, read, out, s')
    {
      ProperlyStands(s);
      if extrasPath == "" {
        return NoExtrasFile, s;
      }
      var x := LoadExtras(read);
      var restart := CheckRestartRequired(x);
      if restart {
        return NeedsRestart, s;
      }
      s' := Accept(x, s);
      AcceptedMakesNext(TheSetup(), s, read, s');
      out := Reloaded(x);
    }

    lemma ProperlyStands(s: State)
      requires Valid() && Stands(s)
      ensures Proper(TheSetup(), s)
    {
    }

    /** Any sequence of reloads is a run. */
    method ReloadAll(files: seq<Read>, ghost s: State) returns (ghost t: seq<State>, ghost steps: seq<Step>)
      requires Valid() && Stands(s)
      modifies live, live.vlans, live.maps, images, servers
      ensures Valid() && fresh(live.maps - old(live.maps))
      ensures Run(TheSetup(), t, steps) && t[0] == s && Stands(t[|steps|])
      ensures Reads(steps) == files
    {
      t, steps := [s], [];
      ghost var now := s;
      ProperlyStands(s);
      EmptyRun(TheSetup(), s);
      for k := 0 to |files|
        invariant Valid() && fresh(live.maps - old(live.maps)) && Stands(now)
        invariant Run(TheSetup(), t, steps) && t[0] == s && t[|steps|] == now
        invariant |steps| == k && Reads(steps) == files[..k]
      {
        var out;
        ghost var next;
        out, next := Reload(files[k], now);
        ProperlyStands(next);
        RunOneMore(TheSetup(), t, steps, Step(files[k], out), next);
        ReadsOneMore(steps, Step(files[k], out), files);
        t, steps, now := t + [next], steps + [Step(files[k], out)], next;
      }
    }
  }

  /**
   From a decoded configuration, with the extras read at start-up, through any
   sequence of reloads: a run, whose base is the configuration as decoded and
   whose live settings were made from it.
   */
  method StartAndReload(
    net: Net, decoded: Settings, extras: Option<Extras>, entries: seq<Entry>, images: TftpImages?,
    users: seq<User>, extrasPath: string, files: seq<Read>)
    returns (r: Reloader, ghost t: seq<State>, ghost steps: seq<Step>)
    requires forall i :: 0 <= i < |entries| ==> entries[i].srv.Valid() && HasScope(decoded, entries[i].scope)
    requires forall i, j :: 0 <= i < j < |entries| ==> entries[i].srv != entries[j].srv
    modifies images, set e | e in entries :: e.srv
    ensures r.Valid() && Run(r.TheSetup(), t, steps) && r.Stands(t[|steps|])
    ensures Reads(steps) == files
    ensures t[0].base == decoded && FromBase(t[0].live, t[0].base)
    ensures if extras.Some? then Applied(net, decoded, extras.value, t[0].live) else t[0].live == decoded
  {
    var live := new Config.Decode(decoded);
    var base := TakeSnapshot(net, live, extras);
    r := new Reloader(net, live, base, entries, images, users, extrasPath);
    ghost var states := seq(|entries|, i requires 0 <= i < |entries| reads set e | e in entries :: e.srv =>
      StateOf(entries[i].srv));
    ghost var s := State(live.settings, base.settings, states, r.ImagesState());
    t, steps := r.ReloadAll(files, s);
  }
}
