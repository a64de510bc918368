/**
 Runs that start with whatever rules an earlier process left in the chain. The
 monitor knows a client's rules by their tag; connects and disconnects change
 the chain as `TrafficMonitor` proves of `AddRules` and `DropRules`.
 */
module TrafficLeftovers {
  import opened TrafficChains

  /** How many rules carry a tag. */
  function Tagged(ch: Chain, tag: string): nat {
    if ch == [] then 0
    else Tagged(ch[..|ch| - 1], tag) + if ch[|ch| - 1].tag == tag then 1 else 0
  }

  datatype World = World(chain: Chain, connected: set<string>)

  datatype Event = Connect(ip: string) | Disconnect(ip: string, late: Counts) | Traffic(ip: string, n: Counts)

  function Next(suffix: string, w: World, e: Event): World {
    match e
    case Connect(ip) =>
      if ip in w.connected then w
      else World(w.chain + [Rule(ip, ip + suffix, ZERO)], w.connected + {ip})
    case Disconnect(ip, late) =>
      if ip !in w.connected then w
      else World(Delete(Hit(w.chain, ip, late), ip + suffix), w.connected - {ip})
    case Traffic(ip, n) => w.(chain := Hit(w.chain, ip, n))
  }

  function Run(suffix: string, w: World, es: seq<Event>): World
    decreases |es|
  {
    if es == [] then w else Run(suffix, Next(suffix, w, es[0]), es[1..])
  }

  /** Some event of the run disconnects the client. */
  predicate DisconnectedDuring(suffix: string, w: World, es: seq<Event>, ip: string)
    decreases |es|
  {
    es != [] &&
    ((es[0].Disconnect? && es[0].ip == ip && ip in w.connected)
     || DisconnectedDuring(suffix, Next(suffix, w, es[0]), es[1..], ip))
  }

  function Own(w: World, ip: string): nat {
    if ip in w.connected then 1 else 0
  }

  lemma TaggedAppend(ch: Chain, r: Rule, tag: string)
    ensures Tagged(ch + [r], tag) == Tagged(ch, tag) + if r.tag == tag then 1 else 0
  {
    assert (ch + [r])[..|ch + [r]| - 1] == ch;
  }

  lemma {:induction false} TaggedHit(ch: Chain, ip: string, n: Counts, tag: string)
    ensures Tagged(Hit(ch, ip, n), tag) == Tagged(ch, tag)
    decreases |ch|
  {
    if ch != [] {
      var front := ch[..|ch| - 1];
      TaggedHit(front, ip, n, tag);
      assert Hit(ch, ip, n)[..|ch| - 1] == Hit(front, ip, n);
    }
  }

  lemma {:induction false} TaggedDelete(ch: Chain, deleted: string, tag: string)
    ensures Tagged(Delete(ch, deleted), tag) == if tag == deleted then 0 else Tagged(ch, tag)
    decreases |ch|
  {
    if ch != [] {
      var front := ch[..|ch| - 1];
      TaggedDelete(front, deleted, tag);
      TaggedAppend(Delete(front, deleted), ch[|ch| - 1], tag);
    }
  }

  /** One event: a connect adds one rule for its client, a disconnect leaves it none. */
  lemma NextTagged(suffix: string, w: World, e: Event, ip: string)
    ensures var w', tag := Next(suffix, w, e), ip + suffix;
            Tagged(w'.chain, tag) ==
            if e.Connect? && e.ip == ip && ip !in w.connected then Tagged(w.chain, tag) + 1
            else if e.Disconnect? && e.ip == ip && ip in w.connected then 0
            else Tagged(w.chain, tag)
  {
    ExtractIPOfTag(ip, suffix);
    match e
    case Connect(x) => TaggedAppend(w.chain, Rule(x, x + suffix, ZERO), ip + suffix);
    case Disconnect(x, late) =>
      TaggedHit(w.chain, x, late, ip + suffix);
      TaggedDelete(Hit(w.chain, x, late), x + suffix, ip + suffix);
    case Traffic(x, n) => TaggedHit(w.chain, x, n, ip + suffix);
  }

  lemma {:induction false} RunTagged(suffix: string, w: World, es: seq<Event>, ip: string)
    requires Tagged(w.chain, ip + suffix) >= Own(w, ip)
    ensures var end := Run(suffix, w, es);
            Tagged(end.chain, ip + suffix) ==
            Own(end, ip) +
            if DisconnectedDuring(suffix, w, es, ip) then 0 else Tagged(w.chain, ip + suffix) - Own(w, ip)
    decreases |es|
  {
    if es != [] {
      NextTagged(suffix, w, es[0], ip);
      RunTagged(suffix, Next(suffix, w, es[0]), es[1..], ip);
    }
  }

  /**
   After any run a client has the rules left over at start, until it disconnects
   for the first time, and one of its own while it is connected.
   */
  lemma LeftoversGoAtDisconnect(suffix: string, left: Chain, es: seq<Event>, ip: string)
    ensures var start := World(left, {});
            var end := Run(suffix, start, es);
            Tagged(end.chain, ip + suffix) ==
            (if DisconnectedDuring(suffix, start, es, ip) then 0 else Tagged(left, ip + suffix)) + Own(end, ip)
  {
    RunTagged(suffix, World(left, {}), es, ip);
  }

  /** So a connected client has exactly one rule exactly when none was left over or it has disconnected since. */
  lemma OneRuleIff(suffix: string, left: Chain, es: seq<Event>, ip: string)
    ensures var start := World(left, {});
            var end := Run(suffix, start, es);
            ip in end.connected ==>
              (Tagged(end.chain, ip + suffix) == 1 <==>
               Tagged(left, ip + suffix) == 0 || DisconnectedDuring(suffix, start, es, ip))
  {
    LeftoversGoAtDisconnect(suffix, left, es, ip);
  }
}
