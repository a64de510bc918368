/**
 Reloading as steps on values, and theorems about whole sequences of reloads.
 `Reloader` proves that the program makes these steps.
 */
module ReloadRuns {
  import opened Common
  import opened DhcpBoot
  import opened Ipv4
  import opened Mac
  import opened MacMaps
  import opened SmbUsers
  import opened ConfigValues

  datatype Scope = LanScope | WifiScope | VlanScope(i: nat)

  /** What is fixed about a DHCP server: its scope in the configuration, its boot server and its subnet. */
  datatype Info = Info(scope: Scope, tftpAddr: string, serverIP: IP, subnetSize: nat)

  datatype ServerState = ServerState(reservations: map<string, IP>, boot: Boot)

  /** The images the TFTP server hands out. */
  datatype Images = Images(macImages: Map, defaultImage: string)

  /** `users` is the list the SMB server was started with. */
  datatype Setup = Setup(net: Net, infos: seq<Info>, users: seq<User>, extrasPath: string)

  datatype State = State(live: Settings, base: Settings, servers: seq<ServerState>, images: Option<Images>)

  /** The extras file: read, absent (and then created or not), or unreadable. */
  datatype Read = Loaded(extras: Extras) | Absent(created: bool) | Broken

  datatype Outcome = Reloaded(extras: Extras) | NeedsRestart | NoExtrasFile

  /** An absent file is made from the live configuration; any failure leaves no extras at all. */
  function ExtrasOf(live: Settings, read: Read): Extras {
    match read
    case Loaded(x) => x
    case Absent(created) => if created then FromConfig(live) else NO_EXTRAS
    case Broken => NO_EXTRAS
  }

  /** The extras move a VLAN. */
  ghost predicate Moves<M>(vlans: seq<Vlan<M>>, x: Extras) {
    exists i :: 0 <= i < |vlans| && Override(vlans, x.vlanAddresses, i) != vlans[i].address
  }

  ghost predicate RestartRequired<M>(vlans: seq<Vlan<M>>, users: seq<User>, x: Extras) {
    Moves(vlans, x) || Key(users) != Key(x.smbUsers)
  }

  predicate HasScope(s: Settings, scope: Scope) {
    scope.VlanScope? ==> scope.i < |s.vlans|
  }

  function ScopeOf(s: Settings, scope: Scope): Dhcp<Map>
    requires HasScope(s, scope)
  {
    match scope
    case LanScope => s.lan
    case WifiScope => s.wifi
    case VlanScope(i) => s.vlans[i].dhcp
  }

  /** The reservations a server takes over: those that denote an address in its subnet. */
  function AdmittedBy(net: Net, info: Info, m: Map): map<string, IP>
    requires info.subnetSize > 0
  {
    map mac | mac in m && net.parse(m[mac]).Some? && SameSubnet(info, net.parse(m[mac]).value) ::
        net.parse(m[mac]).value
  }

  predicate SameSubnet(info: Info, ip: IP)
    requires info.subnetSize > 0
  {
    Value(ip) / info.subnetSize == Value(info.serverIP) / info.subnetSize
  }

  ghost predicate Proper(setup: Setup, s: State) {
    && |setup.infos| == |s.servers|
    && forall i :: 0 <= i < |setup.infos| ==> setup.infos[i].subnetSize > 0 && HasScope(s.base, setup.infos[i].scope)
  }

  function BootServer(net: Net, info: Info): Option<IP> {
    if info.tftpAddr == "" then None else net.parse(info.tftpAddr)
  }

  /** A server after an accepted reload: base reservations and extras, and boot options if PXE is on. */
  ghost predicate ServerReloaded(
    net: Net, info: Info, base: Settings, pxe: Pxe<Map>, x: Extras, v: ServerState, v': ServerState)
  {
    && info.subnetSize > 0 && HasScope(base, info.scope)
    && Overlay(map[], AdmittedBy(net, info, ScopeOf(base, info.scope).reservations + x.reservations), v'.reservations)
    && v'.boot == if pxe.enabled then BootFor(BootServer(net, info), pxe) else v.boot
  }

  ghost predicate ServersReloaded(setup: Setup, s: State, x: Extras, s': State)
    requires Proper(setup, s) && |s'.servers| == |s.servers|
  {
    forall i :: 0 <= i < |s.servers| ==>
      ServerReloaded(setup.net, setup.infos[i], s.base, s'.live.pxe, x, s.servers[i], s'.servers[i])
  }

  ghost predicate ImagesReloaded(images: Option<Images>, x: Extras, images': Option<Images>) {
    if images.None? then images'.None?
    else
      && images'.Some? && images'.value.defaultImage == x.defaultImage
      && Overlay(map[], x.macImages, images'.value.macImages)
  }

  /** A reload. */
  ghost predicate Next(setup: Setup, s: State, read: Read, out: Outcome, s': State)
    requires Proper(setup, s)
  {
    var x := ExtrasOf(s.live, read);
    if setup.extrasPath == "" then
      out == NoExtrasFile && s' == s
    else if RestartRequired(s.live.vlans, setup.users, x) then
      out == NeedsRestart && s' == s
    else
      && out == Reloaded(x)
      && Applied(setup.net, s.live, x, s'.live)
      && s'.base == s.base
      && |s'.servers| == |s.servers|
      && ServersReloaded(setup, s, x, s')
      && ImagesReloaded(s.images, x, s'.images)
  }

  // Sequences of reloads.

  datatype Step = Step(read: Read, out: Outcome)

  /** `t` is the list of the states before, between and after the steps. */
  ghost predicate Run(setup: Setup, t: seq<State>, steps: seq<Step>) {
    && |t| == |steps| + 1
    && (forall k :: 0 <= k < |t| ==> Proper(setup, t[k]))
    && forall k :: 0 <= k < |steps| ==> Next(setup, t[k], steps[k].read, steps[k].out, t[k + 1])
  }

  /** What the steps read, in order. */
  function Reads(steps: seq<Step>): seq<Read> {
    seq(|steps|, k requires 0 <= k < |steps| => steps[k].read)
  }

  lemma ReadsOneMore(steps: seq<Step>, step: Step, files: seq<Read>)
    requires |steps| < |files| && Reads(steps) == files[..|steps|] && step.read == files[|steps|]
    ensures Reads(steps + [step]) == files[..|steps| + 1]
  {
    assert Reads(steps + [step]) == Reads(steps) + [step.read];
  }

  lemma EmptyRun(setup: Setup, s: State)
    requires Proper(setup, s)
    ensures Run(setup, [s], [])
  {
  }

  lemma RunOneMore(setup: Setup, t: seq<State>, steps: seq<Step>, step: Step, s': State)
    requires Run(setup, t, steps) && Proper(setup, s') && Next(setup, t[|steps|], step.read, step.out, s')
    ensures Run(setup, t + [s'], steps + [step])
  {
    var t', steps' := t + [s'], steps + [step];
    forall k | 0 <= k < |steps'|
      ensures Next(setup, t'[k], steps'[k].read, steps'[k].out, t'[k + 1])
    {
      assert k < |steps| ==> t'[k] == t[k] && t'[k + 1] == t[k + 1] && steps'[k] == steps[k];
    }
  }

  /** What no reload changes. */
  ghost predicate SameBasis(s: State, s': State) {
    && s'.base == s.base
    && s'.live.lanAddress == s.live.lanAddress
    && |s'.live.vlans| == |s.live.vlans|
    && (forall i :: 0 <= i < |s.live.vlans| ==>
          s'.live.vlans[i].id == s.live.vlans[i].id && s'.live.vlans[i].address == s.live.vlans[i].address)
    && s'.live.pxe.enabled == s.live.pxe.enabled && s'.live.pxe.bootFile == s.live.pxe.bootFile
    && (s'.images.None? <==> s.images.None?)
  }

  lemma NextKeepsBasis(setup: Setup, s: State, read: Read, out: Outcome, s': State)
    requires Proper(setup, s) && Next(setup, s, read, out, s')
    ensures SameBasis(s, s')
  {
  }

  /** Over any sequence of reloads no VLAN moves and the base snapshot stays as it was. */
  lemma {:induction false} BasisNeverChanges(setup: Setup, t: seq<State>, steps: seq<Step>, k: nat)
    requires Run(setup, t, steps) && k < |t|
    ensures SameBasis(t[0], t[k])
  {
    if k > 0 {
      BasisNeverChanges(setup, t, steps, k - 1);
      NextKeepsBasis(setup, t[k - 1], steps[k - 1].read, steps[k - 1].out, t[k]);
    }
  }

  lemma {:induction false} RejectedChangesNothing(setup: Setup, t: seq<State>, steps: seq<Step>, j: nat, k: nat)
    requires Run(setup, t, steps) && j <= k < |t|
    requires forall m :: j <= m < k ==> !steps[m].out.Reloaded?
    ensures t[k] == t[j]
  {
    if j < k {
      RejectedChangesNothing(setup, t, steps, j, k - 1);
      assert Next(setup, t[k - 1], steps[k - 1].read, steps[k - 1].out, t[k]);
    }
  }

  /** The boot settings that the start-up configuration and some extras amount to. */
  function PxeOf(p: Pxe<Map>, x: Extras, macImages: Map): Pxe<Map> {
    Pxe(p.enabled, p.bootFile, x.defaultImage, x.legacyBootFile, x.uefiBootFile, x.ipxeScript, macImages)
  }

  /** Step j of a run is the last one that was accepted. */
  ghost predicate LastAccepted(steps: seq<Step>, j: nat) {
    j < |steps| && steps[j].out.Reloaded? && forall k :: j < k < |steps| ==> !steps[k].out.Reloaded?
  }

  /** Server i serves what the base configuration and the extras say; `first` is its state at the start. */
  ghost predicate Serves(setup: Setup, start: State, x: Extras, macImages: Map, i: nat, v: ServerState)
    requires Proper(setup, start) && i < |start.servers|
  {
    ServerReloaded(setup.net, setup.infos[i], start.base, PxeOf(start.live.pxe, x, macImages), x, start.servers[i], v)
  }

  lemma {:induction false} BootStaysOff(setup: Setup, t: seq<State>, steps: seq<Step>, k: nat, i: nat)
    requires Run(setup, t, steps) && k < |t| && i < |setup.infos| && !t[0].live.pxe.enabled
    ensures t[k].servers[i].boot == t[0].servers[i].boot
  {
    if k > 0 {
      BootStaysOff(setup, t, steps, k - 1, i);
      BasisNeverChanges(setup, t, steps, k);
      assert Next(setup, t[k - 1], steps[k - 1].read, steps[k - 1].out, t[k]);
    }
  }

  /**
   After any run the reservations and boot options of every server, and the
   images, follow from the start-up configuration and the last accepted extras.
   */
  lemma LastAcceptedDecides(setup: Setup, t: seq<State>, steps: seq<Step>, j: nat) returns (macImages: Map)
    requires Run(setup, t, steps) && LastAccepted(steps, j)
    ensures var x, end := steps[j].out.extras, t[|steps|];
            && Overlay(map[], x.macImages, macImages)
            && (forall i :: 0 <= i < |setup.infos| ==> Serves(setup, t[0], x, macImages, i, end.servers[i]))
            && ImagesReloaded(t[0].images, x, end.images)
  {
    var s, s', x := t[j], t[j + 1], steps[j].out.extras;
    assert Next(setup, s, steps[j].read, steps[j].out, s');
    RejectedChangesNothing(setup, t, steps, j + 1, |steps|);
    BasisNeverChanges(setup, t, steps, j);
    macImages := s'.live.pxe.macImages;
    assert s'.live.pxe == PxeOf(t[0].live.pxe, x, macImages);
    forall i | 0 <= i < |setup.infos|
      ensures Serves(setup, t[0], x, macImages, i, s'.servers[i])
    {
      assert ServerReloaded(setup.net, setup.infos[i], s.base, s'.live.pxe, x, s.servers[i], s'.servers[i]);
      if !t[0].live.pxe.enabled {
        BootStaysOff(setup, t, steps, j, i);
      }
    }
  }

  function Wanted(setup: Setup, base: Settings, x: Extras, i: nat): map<string, IP>
    requires i < |setup.infos| && setup.infos[i].subnetSize > 0 && HasScope(base, setup.infos[i].scope)
  {
    AdmittedBy(setup.net, setup.infos[i], ScopeOf(base, setup.infos[i].scope).reservations + x.reservations)
  }

  /** Whatever the order of the loops, these extras give this server one outcome. */
  ghost predicate Definite(setup: Setup, base: Settings, x: Extras, i: nat)
    requires i < |setup.infos| && setup.infos[i].subnetSize > 0 && HasScope(base, setup.infos[i].scope)
  {
    && Consistent(x.macImages)
    && Consistent(Wanted(setup, base, x, i))
  }

  lemma NormalKeysAreDefinite(setup: Setup, base: Settings, x: Extras, i: nat)
    requires i < |setup.infos| && setup.infos[i].subnetSize > 0 && HasScope(base, setup.infos[i].scope)
    requires forall k :: k in x.macImages || k in x.reservations ==> IsNormal(k)
    requires forall k :: k in ScopeOf(base, setup.infos[i].scope).reservations ==> IsNormal(k)
    ensures Definite(setup, base, x, i)
  {
    NormalIsConsistent(x.macImages);
    NormalIsConsistent(Wanted(setup, base, x, i));
  }

  lemma ServesOnce(
    setup: Setup, start: State, start': State, x: Extras, m: Map, m': Map, i: nat, v: ServerState, v': ServerState)
    requires Proper(setup, start) && Proper(setup, start') && i < |setup.infos|
    requires SameBasis(start, start') && Definite(setup, start.base, x, i)
    requires Overlay(map[], x.macImages, m) && Overlay(map[], x.macImages, m')
    requires Serves(setup, start, x, m, i, v) && Serves(setup, start', x, m', i, v')
    ensures v.reservations == v'.reservations
    ensures start.live.pxe.enabled ==> v.boot == v'.boot
    ensures !start.live.pxe.enabled ==> v.boot == start.servers[i].boot && v'.boot == start'.servers[i].boot
  {
    OneOutcome(map[], x.macImages, m, m');
    var info := setup.infos[i];
    var admitted := AdmittedBy(setup.net, info, ScopeOf(start.base, info.scope).reservations + x.reservations);
    OneOutcome(map[], admitted, v.reservations, v'.reservations);
  }

  /**
   Two runs from the same base whose last accepted extras are the same leave
   each server with the same reservations, and with the same boot options if
   PXE is on; if it is off, no reload touches them.
   */
  lemma EarlierReloadsDoNotMatter(
    setup: Setup, t: seq<State>, steps: seq<Step>, j: nat, t': seq<State>, steps': seq<Step>, j': nat, i: nat)
    requires Run(setup, t, steps) && LastAccepted(steps, j) && Run(setup, t', steps') && LastAccepted(steps', j')
    requires SameBasis(t[0], t'[0]) && steps[j].out.extras == steps'[j'].out.extras
    requires i < |setup.infos| && Definite(setup, t[0].base, steps[j].out.extras, i)
    ensures var v, v' := t[|steps|].servers[i], t'[|steps'|].servers[i];
            && v.reservations == v'.reservations
            && (t[0].live.pxe.enabled ==> v.boot == v'.boot)
            && (!t[0].live.pxe.enabled ==> v.boot == t[0].servers[i].boot && v'.boot == t'[0].servers[i].boot)
  {
    var m := LastAcceptedDecides(setup, t, steps, j);
    var m' := LastAcceptedDecides(setup, t', steps', j');
    ServesOnce(setup, t[0], t'[0], steps[j].out.extras, m, m', i, t[|steps|].servers[i], t'[|steps'|].servers[i]);
  }
}
