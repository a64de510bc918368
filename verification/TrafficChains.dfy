/**
 A kernel chain of counter rules, as the list the monitor gets back, and the
 map from addresses to counters that it stands for.
 */
module TrafficChains {

  const SPACE64 := 0x1_0000_0000_0000_0000

  /** Counters are 64 bits wide. */
  function Wrap(n: nat): (w: nat)
    ensures w < SPACE64
  {
    n % SPACE64
  }

  datatype Counts = Counts(bytes: nat, packets: nat)

  const ZERO := Counts(0, 0)

  function Plus(a: Counts, b: Counts): Counts {
    Counts(a.bytes + b.bytes, a.packets + b.packets)
  }

  predicate Fits(c: Counts) {
    c.bytes < SPACE64 && c.packets < SPACE64
  }

  function Wrapped(c: Counts): Counts {
    Counts(Wrap(c.bytes), Wrap(c.packets))
  }

  lemma WrapOfSum(a: nat, b: nat)
    ensures Wrap(Wrap(a) + b) == Wrap(a + b)
  {
  }

  /** Wrapping early or late makes no difference. */
  lemma WrappedSum(a: Counts, b: Counts)
    ensures Wrapped(Plus(Wrapped(a), b)) == Wrapped(Plus(a, b))
    ensures Wrapped(Plus(a, Wrapped(b))) == Wrapped(Plus(a, b))
  {
    WrapOfSum(a.bytes, b.bytes);
    WrapOfSum(a.packets, b.packets);
    WrapOfSum(b.bytes, a.bytes);
    WrapOfSum(b.packets, a.packets);
  }

  /** A rule counts packets of `ip`; the monitor recognises it by its tag. */
  datatype Rule = Rule(ip: string, tag: string, count: Counts)

  type Chain = seq<Rule>

  datatype Direction = Rx | Tx

  function Suffix(d: Direction): string {
    if d.Rx? then "/rx" else "/tx"
  }

  /** `extractIP`. */
  function ExtractIP(tag: string, suffix: string): string {
    if |tag| <= |suffix| then ""
    else if tag[|tag| - |suffix|..] != suffix then ""
    else tag[..|tag| - |suffix|]
  }

  lemma ExtractIPOfTag(ip: string, suffix: string)
    ensures ExtractIP(ip + suffix, suffix) == ip
    ensures forall ip' :: ip' + suffix == ip + suffix ==> ip' == ip
  {
  }

  ghost predicate HasRule(ch: Chain, ip: string) {
    exists i :: 0 <= i < |ch| && ch[i].ip == ip
  }

  function HitOne(r: Rule, ip: string, n: Counts): Rule {
    if r.ip == ip then r.(count := Wrapped(Plus(r.count, n))) else r
  }

  /** Traffic of one address, seen by every rule for it. */
  function Hit(ch: Chain, ip: string, n: Counts): (r: Chain)
    ensures |r| == |ch|
    ensures forall i :: 0 <= i < |ch| ==> r[i] == HitOne(ch[i], ip, n)
  {
    seq(|ch|, i requires 0 <= i < |ch| => HitOne(ch[i], ip, n))
  }

  /** Sum over all rules with a tag, as read before they are deleted. */
  function SumFor(ch: Chain, tag: string): Counts {
    if ch == [] then ZERO
    else
      var r := ch[|ch| - 1];
      if r.tag == tag then Wrapped(Plus(SumFor(ch[..|ch| - 1], tag), r.count)) else SumFor(ch[..|ch| - 1], tag)
  }

  /** The chain after the rules with a tag have been deleted. */
  function Delete(ch: Chain, tag: string): (r: Chain)
    ensures |r| <= |ch|
  {
    if ch == [] then []
    else
      var rest := Delete(ch[..|ch| - 1], tag);
      if ch[|ch| - 1].tag == tag then rest else rest + [ch[|ch| - 1]]
  }

  lemma {:induction false} DeleteTwice(ch: Chain, tag: string)
    ensures Delete(Delete(ch, tag), tag) == Delete(ch, tag)
    decreases |ch|
  {
    if ch != [] {
      var rest, r := Delete(ch[..|ch| - 1], tag), ch[|ch| - 1];
      DeleteTwice(ch[..|ch| - 1], tag);
      if r.tag != tag {
        assert (rest + [r])[..|rest + [r]| - 1] == rest;
      }
    }
  }

  lemma {:induction false} DeleteNothing(ch: Chain, tag: string)
    requires forall i :: 0 <= i < |ch| ==> ch[i].tag != tag
    ensures Delete(ch, tag) == ch
    decreases |ch|
  {
    if ch != [] {
      DeleteNothing(ch[..|ch| - 1], tag);
    }
  }

  /** Counter per address, the last rule winning, as built for a sample or a status report. */
  function CountersOf(ch: Chain, suffix: string): map<string, Counts> {
    if ch == [] then map[]
    else
      var m, r := CountersOf(ch[..|ch| - 1], suffix), ch[|ch| - 1];
      if ExtractIP(r.tag, suffix) == "" then m else m[ExtractIP(r.tag, suffix) := r.count]
  }

  /** A properly tagged rule for an address of m, with its counter. */
  predicate Stands(r: Rule, suffix: string, m: map<string, Counts>) {
    r.ip != "" && r.tag == r.ip + suffix && r.ip in m && r.count == m[r.ip] && Fits(r.count)
  }

  /** Exactly one such rule for each address of m, and no other rule. */
  ghost predicate Represents(ch: Chain, suffix: string, m: map<string, Counts>) {
    && (forall i :: 0 <= i < |ch| ==> Stands(ch[i], suffix, m))
    && (forall i, j :: 0 <= i < j < |ch| ==> ch[i].ip != ch[j].ip)
    && (forall ip :: ip in m ==> HasRule(ch, ip))
  }

  lemma AppendRepresents(ch: Chain, suffix: string, m: map<string, Counts>, ip: string)
    requires Represents(ch, suffix, m) && ip !in m && ip != ""
    ensures Represents(ch + [Rule(ip, ip + suffix, ZERO)], suffix, m[ip := ZERO])
  {
    var ch' := ch + [Rule(ip, ip + suffix, ZERO)];
    forall x | x in m[ip := ZERO]
      ensures HasRule(ch', x)
    {
      if x == ip {
        assert ch'[|ch|].ip == ip;
      } else {
        var i :| 0 <= i < |ch| && ch[i].ip == x;
        assert ch'[i].ip == x;
      }
    }
  }

  lemma HitHasRule(ch: Chain, ip: string, n: Counts, x: string)
    ensures HasRule(Hit(ch, ip, n), x) <==> HasRule(ch, x)
  {
  }

  function HitMap(m: map<string, Counts>, ip: string, n: Counts): map<string, Counts> {
    if ip in m then m[ip := Wrapped(Plus(m[ip], n))] else m
  }

  lemma HitStands(r: Rule, suffix: string, m: map<string, Counts>, ip: string, n: Counts)
    requires Stands(r, suffix, m)
    ensures Stands(HitOne(r, ip, n), suffix, HitMap(m, ip, n))
  {
  }

  lemma HitRepresents(ch: Chain, suffix: string, m: map<string, Counts>, ip: string, n: Counts)
    requires Represents(ch, suffix, m)
    ensures Represents(Hit(ch, ip, n), suffix, HitMap(m, ip, n))
  {
    var ch' := Hit(ch, ip, n);
    forall x | x in HitMap(m, ip, n)
      ensures HasRule(ch', x)
    {
      HitHasRule(ch, ip, n, x);
    }
    forall i | 0 <= i < |ch'|
      ensures Stands(ch'[i], suffix, HitMap(m, ip, n)) && ch'[i].ip == ch[i].ip
    {
      HitStands(ch[i], suffix, m, ip, n);
    }
  }

  /** The part of m that a chain without its last rule represents. */
  lemma FrontRepresents(ch: Chain, suffix: string, m: map<string, Counts>)
    requires Represents(ch, suffix, m) && ch != []
    ensures ch[|ch| - 1].ip in m
    ensures Represents(ch[..|ch| - 1], suffix, m - {ch[|ch| - 1].ip})
  {
  }

  lemma {:induction false} SumIsCounter(ch: Chain, suffix: string, m: map<string, Counts>, ip: string)
    requires Represents(ch, suffix, m)
    ensures SumFor(ch, ip + suffix) == if ip in m then m[ip] else ZERO
    decreases |ch|
  {
    if ch == [] {
      assert ip in m ==> HasRule(ch, ip);
    } else {
      var r := ch[|ch| - 1];
      FrontRepresents(ch, suffix, m);
      SumIsCounter(ch[..|ch| - 1], suffix, m - {r.ip}, ip);
      ExtractIPOfTag(ip, suffix);
    }
  }

  lemma {:induction false} DeleteRepresents(ch: Chain, suffix: string, m: map<string, Counts>, ip: string)
    requires Represents(ch, suffix, m)
    ensures Represents(Delete(ch, ip + suffix), suffix, m - {ip})
    decreases |ch|
  {
    if ch == [] {
      assert forall x :: x in m ==> HasRule(ch, x);
    } else {
      var r := ch[|ch| - 1];
      FrontRepresents(ch, suffix, m);
      DeleteRepresents(ch[..|ch| - 1], suffix, m - {r.ip}, ip);
      ExtractIPOfTag(ip, suffix);
      var rest := Delete(ch[..|ch| - 1], ip + suffix);
      if r.ip == ip {
        assert m - {r.ip} - {ip} == m - {ip};
      } else {
        SnocRepresents(rest, suffix, m - {ip}, r);
      }
    }
  }

  lemma SnocRepresents(front: Chain, suffix: string, m: map<string, Counts>, r: Rule)
    requires Stands(r, suffix, m)
    requires Represents(front, suffix, m - {r.ip})
    ensures Represents(front + [r], suffix, m)
  {
    var ch := front + [r];
    forall x | x in m
      ensures HasRule(ch, x)
    {
      if x == r.ip {
        assert ch[|front|].ip == x;
      } else {
        assert x in m - {r.ip};
        var i :| 0 <= i < |front| && front[i].ip == x;
        assert ch[i].ip == x;
      }
    }
  }

  lemma {:induction false} CountersAreMap(ch: Chain, suffix: string, m: map<string, Counts>)
    requires Represents(ch, suffix, m)
    ensures CountersOf(ch, suffix) == m
    decreases |ch|
  {
    if ch == [] {
      assert forall x :: x in m ==> HasRule(ch, x);
      assert m == map[];
    } else {
      var r := ch[|ch| - 1];
      FrontRepresents(ch, suffix, m);
      CountersAreMap(ch[..|ch| - 1], suffix, m - {r.ip});
      ExtractIPOfTag(r.ip, suffix);
      assert (m - {r.ip})[r.ip := r.count] == m;
    }
  }

  function RulesFor(ch: Chain, ip: string): nat {
    if ch == [] then 0
    else RulesFor(ch[..|ch| - 1], ip) + if ch[|ch| - 1].ip == ip then 1 else 0
  }

  /** One rule for each address of the map, and none for any other. */
  lemma {:induction false} OneRuleEach(ch: Chain, suffix: string, m: map<string, Counts>, ip: string)
    requires Represents(ch, suffix, m)
    ensures RulesFor(ch, ip) == if ip in m then 1 else 0
    decreases |ch|
  {
    if ch == [] {
      assert ip in m ==> HasRule(ch, ip);
    } else {
      FrontRepresents(ch, suffix, m);
      OneRuleEach(ch[..|ch| - 1], suffix, m - {ch[|ch| - 1].ip}, ip);
    }
  }

  // The same facts, for the map the program itself builds from a chain.

  /** One properly tagged rule per address. */
  ghost predicate Tidy(ch: Chain, suffix: string) {
    Represents(ch, suffix, CountersOf(ch, suffix))
  }

  lemma TidyAppend(ch: Chain, suffix: string, ip: string)
    requires Tidy(ch, suffix) && ip !in CountersOf(ch, suffix) && ip != ""
    ensures var ch' := ch + [Rule(ip, ip + suffix, ZERO)];
            Tidy(ch', suffix) && CountersOf(ch', suffix) == CountersOf(ch, suffix)[ip := ZERO]
  {
    var m := CountersOf(ch, suffix);
    AppendRepresents(ch, suffix, m, ip);
    CountersAreMap(ch + [Rule(ip, ip + suffix, ZERO)], suffix, m[ip := ZERO]);
  }

  lemma TidyHit(ch: Chain, suffix: string, ip: string, n: Counts)
    requires Tidy(ch, suffix)
    ensures var m, ch' := CountersOf(ch, suffix), Hit(ch, ip, n);
            && Tidy(ch', suffix)
            && CountersOf(ch', suffix) == HitMap(m, ip, n)
  {
    var m := CountersOf(ch, suffix);
    HitRepresents(ch, suffix, m, ip, n);
    CountersAreMap(Hit(ch, ip, n), suffix, HitMap(m, ip, n));
  }

  lemma {:induction false} TidyDelete(ch: Chain, suffix: string, ip: string)
    requires Tidy(ch, suffix)
    ensures var m, ch' := CountersOf(ch, suffix), Delete(ch, ip + suffix);
            && SumFor(ch, ip + suffix) == (if ip in m then m[ip] else ZERO)
            && Tidy(ch', suffix) && CountersOf(ch', suffix) == m - {ip}
  {
    var m := CountersOf(ch, suffix);
    SumIsCounter(ch, suffix, m, ip);
    DeleteRepresents(ch, suffix, m, ip);
    CountersAreMap(Delete(ch, ip + suffix), suffix, m - {ip});
  }
}
