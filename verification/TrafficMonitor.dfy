/**
 The monitor and the kernel table it drives. Rule changes are queued and take
 effect when flushed; kernel calls are taken to succeed. Every method is proved
 to make, in both directions, the step that `TrafficAccounts` says.
 */
module TrafficMonitor {
  import opened Common
  import opened TrafficChains
  import Acct = TrafficAccounts

  datatype Command = AddRule(d: Direction, rule: Rule) | DeleteTag(d: Direction, tag: string)

  function Apply(ch: Chain, d: Direction, c: Command): Chain {
    if c.d != d then ch
    else match c
         case AddRule(_, rule) => ch + [rule]
         case DeleteTag(_, tag) => Delete(ch, tag)
  }

  function ApplyAll(ch: Chain, d: Direction, cs: seq<Command>): Chain {
    if cs == [] then ch else Apply(ApplyAll(ch, d, cs[..|cs| - 1]), d, cs[|cs| - 1])
  }

  lemma ApplyTwo(ch: Chain, d: Direction, a: Command, b: Command)
    ensures ApplyAll(ch, d, [a, b]) == Apply(Apply(ch, d, a), d, b)
  {
    assert [a, b][..|[a, b]| - 1] == [a] && [a][..|[a]| - 1] == [];
    assert ApplyAll(ch, d, [a]) == Apply(ch, d, a);
  }

  /** n deletions of the rules with a tag, as queued for n rules found. */
  function Deletions(d: Direction, tag: string, n: nat): seq<Command> {
    if n == 0 then [] else Deletions(d, tag, n - 1) + [DeleteTag(d, tag)]
  }

  lemma ApplyLast(ch: Chain, d: Direction, front: seq<Command>, c: Command)
    ensures ApplyAll(ch, d, front + [c]) == Apply(ApplyAll(ch, d, front), d, c)
  {
    assert (front + [c])[..|front + [c]| - 1] == front;
  }

  lemma DeletesAgain(ch: Chain, d: Direction, tag: string, front: seq<Command>)
    requires ApplyAll(ch, d, front) in {ch, Delete(ch, tag)}
    ensures ApplyAll(ch, d, front + [DeleteTag(d, tag)]) == Delete(ch, tag)
  {
    ApplyLast(ch, d, front, DeleteTag(d, tag));
    DeleteTwice(ch, tag);
  }

  lemma {:induction false} DeletionsDelete(ch: Chain, d: Direction, tag: string, n: nat, cs: seq<Command>)
    requires cs == Deletions(d, tag, n)
    ensures ApplyAll(ch, d, cs) == if n == 0 then ch else Delete(ch, tag)
  {
    if n > 0 {
      var front := Deletions(d, tag, n - 1);
      DeletionsDelete(ch, d, tag, n - 1, front);
      DeletesAgain(ch, d, tag, front);
      assert cs == front + [DeleteTag(d, tag)];
    }
  }

  lemma {:induction false} OthersDoNothing(ch: Chain, d: Direction, tag: string, n: nat, d': Direction)
    requires d' != d
    ensures ApplyAll(ch, d', Deletions(d, tag, n)) == ch
  {
    if n > 0 {
      ApplyLast(ch, d', Deletions(d, tag, n - 1), DeleteTag(d, tag));
      OthersDoNothing(ch, d, tag, n - 1, d');
    }
  }

  lemma {:induction false} ApplyAppend(ch: Chain, d: Direction, a: seq<Command>, b: seq<Command>)
    ensures ApplyAll(ch, d, a + b) == ApplyAll(ApplyAll(ch, d, a), d, b)
    decreases |b|
  {
    if b == [] {
      assert a + b == a;
    } else {
      var all := a + b;
      assert all[..|all| - 1] == a + b[..|b| - 1];
      ApplyAppend(ch, d, a, b[..|b| - 1]);
    }
  }

  /** Both readings queue their deletions; each chain loses exactly its own tagged rules. */
  lemma BothDeletions(rx: Chain, rxTag: string, a: nat, tx: Chain, txTag: string, b: nat)
    requires a == 0 ==> Delete(rx, rxTag) == rx
    requires b == 0 ==> Delete(tx, txTag) == tx
    ensures var cs := Deletions(Rx, rxTag, a) + Deletions(Tx, txTag, b);
            ApplyAll(rx, Rx, cs) == Delete(rx, rxTag) && ApplyAll(tx, Tx, cs) == Delete(tx, txTag)
  {
    ApplyAppend(rx, Rx, Deletions(Rx, rxTag, a), Deletions(Tx, txTag, b));
    DeletionsDelete(rx, Rx, rxTag, a, Deletions(Rx, rxTag, a));
    OthersDoNothing(Delete(rx, rxTag), Tx, txTag, b, Rx);
    ApplyAppend(tx, Tx, Deletions(Rx, rxTag, a), Deletions(Tx, txTag, b));
    OthersDoNothing(tx, Rx, rxTag, a, Tx);
    DeletionsDelete(tx, Tx, txTag, b, Deletions(Tx, txTag, b));
  }

  ghost predicate NoTag(ch: Chain, tag: string) {
    forall i :: 0 <= i < |ch| ==> ch[i].tag != tag
  }

  /** What the flush in `RemoveClient` does to the chains. */
  lemma BothDropped(rx: Chain, tx: Chain, ip: string, lateRx: Counts, lateTx: Counts, a: nat, b: nat)
    requires a == 0 ==> NoTag(rx, ip + Suffix(Rx))
    requires b == 0 ==> NoTag(tx, ip + Suffix(Tx))
    ensures var cs := Deletions(Rx, ip + Suffix(Rx), a) + Deletions(Tx, ip + Suffix(Tx), b);
            && ApplyAll(Hit(rx, ip, lateRx), Rx, cs) == Delete(Hit(rx, ip, lateRx), ip + Suffix(Rx))
            && ApplyAll(Hit(tx, ip, lateTx), Tx, cs) == Delete(Hit(tx, ip, lateTx), ip + Suffix(Tx))
  {
    if a == 0 {
      DeleteNothing(Hit(rx, ip, lateRx), ip + Suffix(Rx));
    }
    if b == 0 {
      DeleteNothing(Hit(tx, ip, lateTx), ip + Suffix(Tx));
    }
    BothDeletions(Hit(rx, ip, lateRx), ip + Suffix(Rx), a, Hit(tx, ip, lateTx), ip + Suffix(Tx), b);
  }

  class Kernel {
    var rx: Chain
    var tx: Chain
    var queue: seq<Command>

    constructor ()
      ensures rx == [] && tx == [] && queue == []
    {
      rx, tx, queue := [], [], [];
    }

    /** Packets of one client pass, in both directions. */
    method Arrive(ip: string, fromClient: Counts, toClient: Counts)
      modifies this`rx, this`tx
      ensures rx == Hit(old(rx), ip, fromClient) && tx == Hit(old(tx), ip, toClient)
    {
      rx, tx := Hit(rx, ip, fromClient), Hit(tx, ip, toClient);
    }

    method Enqueue(c: Command)
      modifies this`queue
      ensures queue == old(queue) + [c]
    {
      queue := queue + [c];
    }

    method Flush()
      modifies this
      ensures rx == ApplyAll(old(rx), Rx, old(queue)) && tx == ApplyAll(old(tx), Tx, old(queue)) && queue == []
    {
      for k := 0 to |queue|
        invariant queue == old(queue)
        invariant rx == ApplyAll(old(rx), Rx, queue[..k]) && tx == ApplyAll(old(tx), Tx, queue[..k])
      {
        assert queue[..k + 1][..k] == queue[..k];
        rx, tx := Apply(rx, Rx, queue[k]), Apply(tx, Tx, queue[k]);
      }
      assert queue[..|queue|] == queue;
      queue := [];
    }
  }

  datatype Entry = Entry(mac: string, via: string, connected: bool, histRx: Counts, histTx: Counts)

  datatype Snapshot = Snapshot(rx: nat, tx: nat, time: int)

  /** The deltas behind a client's rates; the program divides them by dt. */
  datatype Rate = Rate(rx: nat, tx: nat, dt: int)

  datatype ClientInfo = ClientInfo(
    mac: string, via: string, connected: bool,
    rx: Counts, tx: Counts, totalRx: Counts, totalTx: Counts, rate: Option<Rate>)

  function Hist(e: Entry, d: Direction): Counts {
    if d.Rx? then e.histRx else e.histTx
  }

  function Histories(clients: map<string, Entry>, d: Direction): map<string, Counts> {
    map ip | ip in clients :: Hist(clients[ip], d)
  }

  /** The accounting state a chain and the client table stand for. */
  function SideOf(ch: Chain, d: Direction, clients: map<string, Entry>): Acct.Side {
    Acct.Side(CountersOf(ch, Suffix(d)), Histories(clients, d))
  }

  predicate Connected(clients: map<string, Entry>, ip: string) {
    ip in clients && clients[ip].connected
  }

  /** One properly tagged rule for each connected client, and none for anybody else. */
  ghost predicate RulesMatch(ch: Chain, d: Direction, clients: map<string, Entry>) {
    Tidy(ch, Suffix(d)) && forall ip :: ip in CountersOf(ch, Suffix(d)) <==> Connected(clients, ip)
  }

  lemma HistoriesUpdate(clients: map<string, Entry>, ip: string, e: Entry, d: Direction)
    ensures Histories(clients[ip := e], d) == Histories(clients, d)[ip := Hist(e, d)]
  {
  }

  lemma AddKeepsMatch(ch: Chain, d: Direction, clients: map<string, Entry>, ip: string, e: Entry)
    requires RulesMatch(ch, d, clients) && ip != "" && !Connected(clients, ip)
    requires e.connected && Hist(e, d) == if ip in clients then Hist(clients[ip], d) else ZERO
    ensures var ch', clients' := ch + [Rule(ip, ip + Suffix(d), ZERO)], clients[ip := e];
            RulesMatch(ch', d, clients') && SideOf(ch', d, clients') == Acct.AddClient(SideOf(ch, d, clients), ip)
  {
    TidyAppend(ch, Suffix(d), ip);
    HistoriesUpdate(clients, ip, e, d);
    if ip in clients {
      assert Histories(clients, d)[ip := Hist(clients[ip], d)] == Histories(clients, d);
    }
  }

  lemma UpdateThenRemove(m: map<string, Counts>, ip: string, c: Counts)
    ensures m[ip := c] - {ip} == m - {ip}
  {
  }

  /** Late traffic goes with the rules. */
  lemma LateTrafficIsDropped(ch: Chain, hit: Chain, suffix: string, ip: string, late: Counts)
    requires Tidy(ch, suffix) && hit == Hit(ch, ip, late)
    ensures Tidy(Delete(hit, ip + suffix), suffix)
    ensures CountersOf(Delete(hit, ip + suffix), suffix) == CountersOf(ch, suffix) - {ip}
  {
    var m := CountersOf(ch, suffix);
    HitRepresents(ch, suffix, m, ip, late);
    if ip in m {
      var c := Wrapped(Plus(m[ip], late));
      UpdateThenRemove(m, ip, c);
      DeleteRepresents(hit, suffix, m[ip := c], ip);
    } else {
      DeleteRepresents(hit, suffix, m, ip);
    }
    CountersAreMap(Delete(hit, ip + suffix), suffix, m - {ip});
  }

  lemma RemovedSide(ch: Chain, d: Direction, clients: map<string, Entry>, ip: string, ch': Chain, e: Entry)
    requires ip in clients && ip in CountersOf(ch, Suffix(d))
    requires CountersOf(ch', Suffix(d)) == CountersOf(ch, Suffix(d)) - {ip}
    requires Hist(e, d) == Wrapped(Plus(Hist(clients[ip], d), CountersOf(ch, Suffix(d))[ip]))
    ensures SideOf(ch', d, clients[ip := e]) == Acct.RemoveClient(SideOf(ch, d, clients), ip)
  {
  }

  lemma RemoveKeepsMatch(ch: Chain, d: Direction, clients: map<string, Entry>, ip: string, late: Counts, e: Entry)
    requires RulesMatch(ch, d, clients) && Connected(clients, ip)
    requires !e.connected && Hist(e, d) == Wrapped(Plus(Hist(clients[ip], d), SumFor(ch, ip + Suffix(d))))
    ensures var ch', clients' := Delete(Hit(ch, ip, late), ip + Suffix(d)), clients[ip := e];
            RulesMatch(ch', d, clients') && SideOf(ch', d, clients') == Acct.RemoveClient(SideOf(ch, d, clients), ip)
  {
    TidyDelete(ch, Suffix(d), ip);
    LateTrafficIsDropped(ch, Hit(ch, ip, late), Suffix(d), ip, late);
    RemovedSide(ch, d, clients, ip, Delete(Hit(ch, ip, late), ip + Suffix(d)), e);
  }

  lemma HitKeepsMatch(ch: Chain, d: Direction, clients: map<string, Entry>, ip: string, n: Counts)
    requires RulesMatch(ch, d, clients)
    ensures RulesMatch(Hit(ch, ip, n), d, clients)
    ensures SideOf(Hit(ch, ip, n), d, clients) == Acct.Count(SideOf(ch, d, clients), ip, n)
  {
    TidyHit(ch, Suffix(d), ip, n);
  }

  /** The entry of a client that connects: history is kept, the rest is new. */
  function Reconnected(clients: map<string, Entry>, ip: string, mac: string, via: string): Entry {
    Entry(mac, via, true,
          if ip in clients then clients[ip].histRx else ZERO, if ip in clients then clients[ip].histTx else ZERO)
  }

  /** The entry of a client that connects, field by field. */
  predicate IsFresh(clients: map<string, Entry>, ip: string, e: Entry, mac: string, via: string) {
    && e.connected && e.mac == mac && e.via == via
    && e.histRx == (if ip in clients then clients[ip].histRx else Counts(0, 0))
    && e.histTx == (if ip in clients then clients[ip].histTx else Counts(0, 0))
  }

  lemma ReconnectedIsFresh(clients: map<string, Entry>, ip: string, mac: string, via: string)
    ensures IsFresh(clients, ip, Reconnected(clients, ip, mac, via), mac, via)
  {
  }

  lemma AddKnown(ch: Chain, d: Direction, clients: map<string, Entry>, ip: string)
    requires RulesMatch(ch, d, clients) && Connected(clients, ip)
    ensures Acct.AddClient(SideOf(ch, d, clients), ip) == SideOf(ch, d, clients)
  {
  }

  lemma RemoveUnknown(ch: Chain, d: Direction, clients: map<string, Entry>, ip: string)
    requires RulesMatch(ch, d, clients) && !Connected(clients, ip)
    ensures Acct.RemoveClient(SideOf(ch, d, clients), ip) == SideOf(ch, d, clients)
  {
  }

  /** What every method keeps: a connected client has one rule in each direction, any other address none. */
  lemma ConnectedHasOneRule(ch: Chain, d: Direction, clients: map<string, Entry>, ip: string)
    requires RulesMatch(ch, d, clients)
    ensures RulesFor(ch, ip) == if Connected(clients, ip) then 1 else 0
  {
    OneRuleEach(ch, Suffix(d), CountersOf(ch, Suffix(d)), ip);
  }

  // Snapshots.

  lemma CountersSnoc(ch: Chain, k: nat, suffix: string)
    requires k < |ch|
    ensures var m, ip := CountersOf(ch[..k], suffix), ExtractIP(ch[k].tag, suffix);
            CountersOf(ch[..k + 1], suffix) == if ip == "" then m else m[ip := ch[k].count]
  {
    assert ch[..k + 1][..k] == ch[..k];
  }

  function BytesIn(m: map<string, Counts>, ip: string): nat {
    if ip in m then m[ip].bytes else 0
  }

  function SnapshotOf(rx: map<string, Counts>, tx: map<string, Counts>, now: int): map<string, Snapshot> {
    map ip | ip in rx.Keys + tx.Keys :: Snapshot(BytesIn(rx, ip), BytesIn(tx, ip), now)
  }

  function RxBytes(s: map<string, Snapshot>): map<string, nat> {
    map ip | ip in s :: s[ip].rx
  }

  function TxBytes(s: map<string, Snapshot>): map<string, nat> {
    map ip | ip in s :: s[ip].tx
  }

  function RateOf(prev: Snapshot, cur: Snapshot): Rate {
    Rate(Acct.Delta(prev.rx, cur.rx), Acct.Delta(prev.tx, cur.tx), cur.time - prev.time)
  }

  /** Only clients in both snapshots, the second one later, get a rate. */
  function Rates(prev: map<string, Snapshot>, cur: map<string, Snapshot>): map<string, Rate> {
    map ip | ip in cur && ip in prev && cur[ip].time > prev[ip].time :: RateOf(prev[ip], cur[ip])
  }

  lemma SnapshotRx(rx: map<string, Counts>, tx: map<string, Counts>, now: int, ip: string, c: Counts)
    ensures var s := SnapshotOf(rx, tx, now);
            SnapshotOf(rx[ip := c], tx, now)
            == s[ip := (if ip in s then s[ip] else Snapshot(0, 0, 0)).(rx := c.bytes, time := now)]
  {
  }

  lemma SnapshotTx(rx: map<string, Counts>, tx: map<string, Counts>, now: int, ip: string, c: Counts)
    ensures var s := SnapshotOf(rx, tx, now);
            SnapshotOf(rx, tx[ip := c], now)
            == s[ip := (if ip in s then s[ip] else Snapshot(0, 0, 0)).(tx := c.bytes, time := now)]
  {
  }

  lemma SnapshotIsSample(rx: map<string, Counts>, tx: map<string, Counts>, now: int,
                         histRx: map<string, Counts>, histTx: map<string, Counts>)
    ensures RxBytes(SnapshotOf(rx, tx, now)) == Acct.TakeSample(Acct.Side(rx, histRx), tx.Keys)
    ensures TxBytes(SnapshotOf(rx, tx, now)) == Acct.TakeSample(Acct.Side(tx, histTx), rx.Keys)
  {
  }

  /** A snapshot of the clients with a rule in either direction, with the bytes of their counters. */
  ghost predicate SampleOf(s: map<string, Snapshot>, rx: Acct.Side, tx: Acct.Side, now: int) {
    && s.Keys == rx.live.Keys + tx.live.Keys
    && forall ip :: ip in s ==> s[ip] == Snapshot(Acct.LiveOf(rx, ip).bytes, Acct.LiveOf(tx, ip).bytes, now)
  }

  /** A client has a rate exactly when both snapshots have it and time has passed; each direction is its own delta. */
  ghost predicate RatesFor(
    prev: map<string, Snapshot>, cur: map<string, Snapshot>, now: int, rates: map<string, Rate>)
  {
    && (forall ip :: ip in rates <==> ip in prev && ip in cur && prev[ip].time < now)
    && forall ip :: ip in rates ==>
         && rates[ip].rx == Acct.Delta(prev[ip].rx, cur[ip].rx) && rates[ip].tx == Acct.Delta(prev[ip].tx, cur[ip].tx)
         && rates[ip].dt == now - prev[ip].time
  }

  lemma SnapshotIsSampleOf(rx: map<string, Counts>, tx: map<string, Counts>, now: int,
                           histRx: map<string, Counts>, histTx: map<string, Counts>)
    ensures SampleOf(SnapshotOf(rx, tx, now), Acct.Side(rx, histRx), Acct.Side(tx, histTx), now)
  {
  }

  lemma RatesAreFor(prev: map<string, Snapshot>, cur: map<string, Snapshot>, now: int)
    requires forall ip :: ip in cur ==> cur[ip].time == now
    ensures RatesFor(prev, cur, now, Rates(prev, cur))
  {
  }

  method RatesSince(prev: map<string, Snapshot>, current: map<string, Snapshot>) returns (rates: map<string, Rate>)
    ensures rates == Rates(prev, current)
  {
    rates := map[];
    var todo := current.Keys;
    while todo != {}
      invariant todo <= current.Keys
      invariant rates == Rates(prev, current - todo)
      decreases todo
    {
      var ip :| ip in todo;
      todo := todo - {ip};
      if ip in prev && current[ip].time - prev[ip].time > 0 {
        rates := rates[ip := RateOf(prev[ip], current[ip])];
      }
    }
    assert current - todo == current;
  }

  function Report(e: Entry, rx: Acct.Side, tx: Acct.Side, ip: string, rates: map<string, Rate>): ClientInfo
    requires ip in rx.hist && ip in tx.hist
  {
    ClientInfo(e.mac, e.via, e.connected,
               Acct.LiveOf(rx, ip), Acct.LiveOf(tx, ip), Acct.Reported(rx, ip), Acct.Reported(tx, ip),
               if ip in rates then Some(rates[ip]) else None)
  }

  class Monitor {
    const kernel: Kernel
    const gatewayIPs: set<string>
    var clients: map<string, Entry>
    var prevSnapshot: map<string, Snapshot>
    var rates: map<string, Rate>

    ghost predicate Valid()
      reads this`clients, kernel
    {
      && kernel.queue == []
      && RulesMatch(kernel.rx, Rx, clients)
      && RulesMatch(kernel.tx, Tx, clients)
    }

    ghost function RxSide(): Acct.Side
      reads this`clients, kernel
    {
      SideOf(kernel.rx, Rx, clients)
    }

    ghost function TxSide(): Acct.Side
      reads this`clients, kernel
    {
      SideOf(kernel.tx, Tx, clients)
    }

    constructor (gatewayIPs: set<string>)
      ensures Valid() && fresh(kernel) && this.gatewayIPs == gatewayIPs
      ensures clients == map[] && prevSnapshot == map[] && rates == map[]
      ensures RxSide() == Acct.START.side && TxSide() == Acct.START.side
    {
      kernel := new Kernel();
      this.gatewayIPs, clients, prevSnapshot, rates := gatewayIPs, map[], map[], map[];
    }

    method AddClient(ip: string, mac: string, via: string)
      requires Valid() && ip != ""
      modifies this`clients, kernel
      ensures Valid()
      ensures RxSide() == Acct.AddClient(old(RxSide()), ip) && TxSide() == Acct.AddClient(old(TxSide()), ip)
      ensures Connected(old(clients), ip) ==> clients == old(clients)
      ensures !Connected(old(clients), ip) ==>
                && ip in clients && clients == old(clients)[ip := clients[ip]]
                && IsFresh(old(clients), ip, clients[ip], mac, if ip in gatewayIPs then "G" else via)
    {
      var v := if ip in gatewayIPs then "G" else via;
      if ip in clients && clients[ip].connected {
        AddKnown(kernel.rx, Rx, clients, ip);
        AddKnown(kernel.tx, Tx, clients, ip);
        return;
      }
      ReconnectedIsFresh(clients, ip, mac, v);
      Connect(ip, mac, v);
    }

    method Connect(ip: string, mac: string, via: string)
      requires Valid() && ip != "" && !Connected(clients, ip)
      modifies this`clients, kernel
      ensures Valid()
      ensures RxSide() == Acct.AddClient(old(RxSide()), ip) && TxSide() == Acct.AddClient(old(TxSide()), ip)
      ensures clients == old(clients)[ip := Reconnected(old(clients), ip, mac, via)]
    {
      var entry;
      if ip in clients {
        entry := clients[ip].(connected := true, mac := mac, via := via);
      } else {
        entry := Entry(mac, via, true, ZERO, ZERO);
      }
      assert entry == Reconnected(clients, ip, mac, via);
      AddKeepsMatch(kernel.rx, Rx, clients, ip, entry);
      AddKeepsMatch(kernel.tx, Tx, clients, ip, entry);
      clients := clients[ip := entry];
      AddRules(ip);
    }

    method AddRules(ip: string)
      requires kernel.queue == []
      modifies kernel
      ensures kernel.queue == []
      ensures kernel.rx == old(kernel.rx) + [Rule(ip, ip + Suffix(Rx), ZERO)]
      ensures kernel.tx == old(kernel.tx) + [Rule(ip, ip + Suffix(Tx), ZERO)]
    {
      ghost var add := [AddRule(Rx, Rule(ip, ip + Suffix(Rx), ZERO)), AddRule(Tx, Rule(ip, ip + Suffix(Tx), ZERO))];
      kernel.Enqueue(AddRule(Rx, Rule(ip, ip + Suffix(Rx), ZERO)));
      kernel.Enqueue(AddRule(Tx, Rule(ip, ip + Suffix(Tx), ZERO)));
      assert kernel.queue == add;
      ApplyTwo(kernel.rx, Rx, add[0], add[1]);
      ApplyTwo(kernel.tx, Tx, add[0], add[1]);
      kernel.Flush();
    }

    /** Sums the matching rules and queues one deletion for each. */
    method ReadAndDeleteRules(d: Direction, tag: string) returns (sum: Counts, ghost deletions: nat)
      modifies kernel`queue
      ensures sum == SumFor(if d.Rx? then kernel.rx else kernel.tx, tag)
      ensures kernel.queue == old(kernel.queue) + Deletions(d, tag, deletions)
      ensures deletions == 0 ==> NoTag(if d.Rx? then kernel.rx else kernel.tx, tag)
    {
      var rules := if d.Rx? then kernel.rx else kernel.tx;
      sum, deletions := ZERO, 0;
      for k := 0 to |rules|
        invariant sum == SumFor(rules[..k], tag)
        invariant kernel.queue == old(kernel.queue) + Deletions(d, tag, deletions)
        invariant deletions == 0 ==> forall i :: 0 <= i < k ==> rules[i].tag != tag
      {
        assert rules[..k + 1][..k] == rules[..k];
        if rules[k].tag == tag {
          sum := Wrapped(Plus(sum, rules[k].count));
          kernel.Enqueue(DeleteTag(d, tag));
          deletions := deletions + 1;
        }
      }
      assert rules[..|rules|] == rules;
    }

    /** `lateRx` and `lateTx` arrive between the readings and the flush. */
    method RemoveClient(ip: string, lateRx: Counts, lateTx: Counts)
      requires Valid()
      modifies this`clients, kernel
      ensures Valid()
      ensures RxSide() == Acct.RemoveClient(old(RxSide()), ip) && TxSide() == Acct.RemoveClient(old(TxSide()), ip)
      ensures if Connected(old(clients), ip)
              then ip in clients && clients == old(clients)[ip := clients[ip]] && !clients[ip].connected
              else clients == old(clients) && kernel.rx == old(kernel.rx) && kernel.tx == old(kernel.tx)
    {
      if ip !in clients || !clients[ip].connected {
        RemoveUnknown(kernel.rx, Rx, clients, ip);
        RemoveUnknown(kernel.tx, Tx, clients, ip);
        return;
      }
      RemoveConnected(ip, lateRx, lateTx);
    }

    method RemoveConnected(ip: string, lateRx: Counts, lateTx: Counts)
      requires Valid() && Connected(clients, ip)
      modifies this`clients, kernel
      ensures Valid()
      ensures RxSide() == Acct.RemoveClient(old(RxSide()), ip) && TxSide() == Acct.RemoveClient(old(TxSide()), ip)
      ensures ip in clients && clients == old(clients)[ip := clients[ip]] && !clients[ip].connected
    {
      ghost var rx, tx, before := kernel.rx, kernel.tx, clients;
      var entry := DropRules(ip, clients[ip], lateRx, lateTx);
      clients := clients[ip := entry];
      RemoveKeepsMatch(rx, Rx, before, ip, lateRx, entry);
      RemoveKeepsMatch(tx, Tx, before, ip, lateTx, entry);
    }

    method DropRules(ip: string, entry: Entry, lateRx: Counts, lateTx: Counts) returns (closed: Entry)
      requires kernel.queue == []
      modifies kernel
      ensures kernel.queue == []
      ensures kernel.rx == Delete(Hit(old(kernel.rx), ip, lateRx), ip + Suffix(Rx))
      ensures kernel.tx == Delete(Hit(old(kernel.tx), ip, lateTx), ip + Suffix(Tx))
      ensures closed == entry.(
                connected := false,
                histRx := Wrapped(Plus(entry.histRx, SumFor(old(kernel.rx), ip + Suffix(Rx)))),
                histTx := Wrapped(Plus(entry.histTx, SumFor(old(kernel.tx), ip + Suffix(Tx)))))
    {
      var rxSum, rxDeletions := ReadAndDeleteRules(Rx, ip + Suffix(Rx));
      assert kernel.queue == Deletions(Rx, ip + Suffix(Rx), rxDeletions);
      var txSum, txDeletions := ReadAndDeleteRules(Tx, ip + Suffix(Tx));
      closed := entry.(
        histRx := Wrapped(Plus(entry.histRx, rxSum)),
        histTx := Wrapped(Plus(entry.histTx, txSum)),
        connected := false);
      kernel.Arrive(ip, lateRx, lateTx);
      BothDropped(old(kernel.rx), old(kernel.tx), ip, lateRx, lateTx, rxDeletions, txDeletions);
      kernel.Flush();
    }

    /** Packets pass the kernel's chains: no step of the program. */
    method Pass(ip: string, fromClient: Counts, toClient: Counts)
      requires Valid()
      modifies kernel
      ensures Valid()
      ensures RxSide() == Acct.Count(old(RxSide()), ip, fromClient)
      ensures TxSide() == Acct.Count(old(TxSide()), ip, toClient)
    {
      HitKeepsMatch(kernel.rx, Rx, clients, ip, fromClient);
      HitKeepsMatch(kernel.tx, Tx, clients, ip, toClient);
      kernel.Arrive(ip, fromClient, toClient);
    }

    method Sample(now: int)
      requires Valid()
      modifies this`prevSnapshot, this`rates
      ensures Valid()
      ensures RxBytes(prevSnapshot) == Acct.TakeSample(RxSide(), TxSide().live.Keys)
      ensures TxBytes(prevSnapshot) == Acct.TakeSample(TxSide(), RxSide().live.Keys)
      ensures SampleOf(prevSnapshot, RxSide(), TxSide(), now)
      ensures RatesFor(old(prevSnapshot), prevSnapshot, now, rates)
    {
      var current := CurrentSnapshot(now);
      SnapshotIsSample(CountersOf(kernel.rx, "/rx"), CountersOf(kernel.tx, "/tx"), now, RxSide().hist, TxSide().hist);
      SnapshotIsSampleOf(CountersOf(kernel.rx, "/rx"), CountersOf(kernel.tx, "/tx"), now, RxSide().hist, TxSide().hist);
      var newRates := RatesSince(prevSnapshot, current);
      RatesAreFor(prevSnapshot, current, now);
      prevSnapshot, rates := current, newRates;
    }

    method CurrentSnapshot(now: int) returns (current: map<string, Snapshot>)
      ensures current == SnapshotOf(CountersOf(kernel.rx, "/rx"), CountersOf(kernel.tx, "/tx"), now)
    {
      current := map[];
      ghost var rx, tx := map[], map[];
      for k := 0 to |kernel.rx|
        invariant rx == CountersOf(kernel.rx[..k], "/rx")
        invariant current == SnapshotOf(rx, tx, now)
      {
        var ip := ExtractIP(kernel.rx[k].tag, "/rx");
        CountersSnoc(kernel.rx, k, "/rx");
        if ip != "" {
          var snap := if ip in current then current[ip] else Snapshot(0, 0, 0);
          current := current[ip := snap.(rx := kernel.rx[k].count.bytes, time := now)];
          SnapshotRx(rx, tx, now, ip, kernel.rx[k].count);
          rx := rx[ip := kernel.rx[k].count];
        }
      }
      assert kernel.rx[..|kernel.rx|] == kernel.rx;
      for k := 0 to |kernel.tx|
        invariant tx == CountersOf(kernel.tx[..k], "/tx")
        invariant current == SnapshotOf(rx, tx, now)
      {
        var ip := ExtractIP(kernel.tx[k].tag, "/tx");
        CountersSnoc(kernel.tx, k, "/tx");
        if ip != "" {
          var snap := if ip in current then current[ip] else Snapshot(0, 0, 0);
          current := current[ip := snap.(tx := kernel.tx[k].count.bytes, time := now)];
          SnapshotTx(rx, tx, now, ip, kernel.tx[k].count);
          tx := tx[ip := kernel.tx[k].count];
        }
      }
      assert kernel.tx[..|kernel.tx|] == kernel.tx;
    }

    method CountersByIP(d: Direction) returns (counters: map<string, Counts>)
      ensures counters == CountersOf(if d.Rx? then kernel.rx else kernel.tx, Suffix(d))
    {
      var rules := if d.Rx? then kernel.rx else kernel.tx;
      counters := map[];
      for k := 0 to |rules|
        invariant counters == CountersOf(rules[..k], Suffix(d))
      {
        CountersSnoc(rules, k, Suffix(d));
        var ip := ExtractIP(rules[k].tag, Suffix(d));
        if ip != "" {
          counters := counters[ip := rules[k].count];
        }
      }
      assert rules[..|rules|] == rules;
    }

    /** One report per client ever seen, in no particular order. */
    method GetStatus() returns (reports: map<string, ClientInfo>)
      requires Valid()
      ensures reports.Keys == clients.Keys == RxSide().hist.Keys == TxSide().hist.Keys
      ensures forall ip :: ip in reports ==>
                && reports[ip].mac == clients[ip].mac && reports[ip].via == clients[ip].via
                && reports[ip].connected == clients[ip].connected
                && reports[ip].rx == Acct.LiveOf(RxSide(), ip) && reports[ip].tx == Acct.LiveOf(TxSide(), ip)
                && reports[ip].totalRx == Acct.Reported(RxSide(), ip)
                && reports[ip].totalTx == Acct.Reported(TxSide(), ip)
                && reports[ip].rate == if ip in rates then Some(rates[ip]) else None
    {
      var rxCounters := CountersByIP(Rx);
      var txCounters := CountersByIP(Tx);
      reports := map[];
      var todo := clients.Keys;
      while todo != {}
        invariant todo <= clients.Keys && reports.Keys == clients.Keys - todo
        invariant forall ip :: ip in reports ==> reports[ip] == Report(clients[ip], RxSide(), TxSide(), ip, rates)
        decreases todo
      {
        var ip :| ip in todo;
        todo := todo - {ip};
        var entry := clients[ip];
        var rx := if ip in rxCounters then rxCounters[ip] else ZERO;
        var tx := if ip in txCounters then txCounters[ip] else ZERO;
        reports := reports[ip := ClientInfo(
          entry.mac, entry.via, entry.connected, rx, tx,
          Wrapped(Plus(entry.histRx, rx)), Wrapped(Plus(entry.histTx, tx)),
          if ip in rates then Some(rates[ip]) else None)];
      }
    }
  }
}
