/** When the delta behind a rate is just what was counted since the sample before. */
module TrafficRates {
  import opened TrafficChains
  import opened TrafficAccounts

  predicate NoSample(es: seq<Event>) {
    forall k :: 0 <= k < |es| ==> !es[k].Sample?
  }

  /** Some event of the run ends a session of the client. */
  predicate DisconnectedDuring(w: World, es: seq<Event>, ip: string)
    decreases |es|
  {
    es != [] &&
    ((es[0].Disconnect? && es[0].ip == ip && ip in w.side.live) || DisconnectedDuring(Next(w, es[0]), es[1..], ip))
  }

  lemma {:induction false} SampleStays(w: World, es: seq<Event>)
    requires NoSample(es)
    ensures Run(w, es).prev == w.prev && Run(w, es).marks == w.marks
    decreases |es|
  {
    if es != [] {
      SampleStays(Next(w, es[0]), es[1..]);
    }
  }

  /** One event outside a disconnect: what is counted is counted in the running session. */
  lemma SessionGoesOnStep(w: World, e: Event, ip: string)
    requires !(e.Disconnect? && e.ip == ip && ip in w.side.live)
    ensures var b, b' := BookOf(w, ip), BookOf(Next(w, e), ip);
            b'.past == b.past && b'.lost == b.lost && b.session.bytes <= b'.session.bytes
  {
    BookAfter(w, e, ip);
  }

  lemma {:induction false} SessionGoesOn(w: World, es: seq<Event>, ip: string)
    requires !DisconnectedDuring(w, es, ip)
    ensures var b, b' := BookOf(w, ip), BookOf(Run(w, es), ip);
            b'.past == b.past && b'.lost == b.lost && b.session.bytes <= b'.session.bytes
    decreases |es|
  {
    if es != [] {
      SessionGoesOnStep(w, es[0], ip);
      SessionGoesOn(Next(w, es[0]), es[1..], ip);
    }
  }

  /** The running session counts no more than everything since the disconnect. */
  lemma {:induction false} NewSessionIsPart(w: World, es: seq<Event>, ip: string)
    requires DisconnectedDuring(w, es, ip)
    ensures var b, b' := BookOf(w, ip), BookOf(Run(w, es), ip);
            b'.session.bytes <= Counted(b').bytes - Counted(b).bytes
    decreases |es|
  {
    var w' := Next(w, es[0]);
    BookAfter(w, es[0], ip);
    NextGrows(w, es[0], ip);
    if DisconnectedDuring(w', es[1..], ip) {
      NewSessionIsPart(w', es[1..], ip);
    } else {
      SessionGoesOn(w', es[1..], ip);
    }
  }

  /** A 64-bit counter that stood at prev and counted n more bytes shows all of them unless it wrapped. */
  lemma DeltaOfSession(prev: nat, n: nat)
    requires prev < SPACE64
    ensures Delta(prev, Wrap(prev + n)) == n <==> prev + n < SPACE64
  {
  }

  /** A counter that started again shows all of the bytes only in these cases. */
  lemma DeltaOfNewSession(prev: nat, session: nat, n: nat)
    requires session <= n
    ensures Delta(prev, Wrap(session)) == n <==> n == 0 || (prev == 0 && session == n < SPACE64)
  {
    WrapAtMost(session);
  }

  /** The counters of a client at the sample and at the end, by the books. */
  lemma SampledCounters(es: seq<Event>, others: set<string>, after: seq<Event>, ip: string)
    requires NoSample(after)
    ensures var w0 := Run(START, es);
            var w1 := Next(w0, Sample(others));
            && Run(w1, after).prev == TakeSample(w0.side, others) && BookOf(w1, ip) == BookOf(w0, ip)
            && LiveOf(w0.side, ip) == Wrapped(BookOf(w0, ip).session)
            && LiveOf(Run(w1, after).side, ip) == Wrapped(BookOf(Run(w1, after), ip).session)
  {
    var w0 := Run(START, es);
    var w1 := Next(w0, Sample(others));
    SampleStays(w1, after);
    StartIsInOrder(ip);
    RunBalanced(START, es, ip);
    NextBalanced(w0, Sample(others), ip);
    RunBalanced(w1, after, ip);
  }

  /** The delta is all that was counted exactly in these cases; `more` is what the books say was counted. */
  ghost predicate ExactCases(delta: nat, disconnected: bool, prev: nat, session: nat, more: int) {
    delta == more <==>
    if disconnected then more == 0 || (prev == 0 && session == more < 0x1_0000_0000_0000_0000)
    else prev + more < 0x1_0000_0000_0000_0000
  }

  lemma ExactCasesHold(before: Book, now: Book, disconnected: bool)
    requires disconnected ==> now.session.bytes <= Counted(now).bytes - Counted(before).bytes
    requires !disconnected ==>
               now.past == before.past && now.lost == before.lost && before.session.bytes <= now.session.bytes
    ensures var prev, cur := Wrap(before.session.bytes), Wrap(now.session.bytes);
            ExactCases(Delta(prev, cur), disconnected, prev, now.session.bytes,
                       Counted(now).bytes - Counted(before).bytes)
  {
    var prev, n := Wrap(before.session.bytes), Counted(now).bytes - Counted(before).bytes;
    if disconnected {
      DeltaOfNewSession(prev, now.session.bytes, n);
    } else {
      WrapOfSum(before.session.bytes, n);
      DeltaOfSession(prev, n);
    }
  }

  /**
   On every run the delta between two samples is exactly the bytes counted in
   between: for a client that was not disconnected, as long as its counter did
   not wrap; for one that was, only when nothing was counted, or the counter
   stood at zero and everything was counted since the last reconnect.
   */
  lemma DeltaIsExactIff(es: seq<Event>, others: set<string>, after: seq<Event>, others': set<string>, ip: string)
    requires NoSample(after)
    requires var w0 := Run(START, es);
             ip in TakeSample(w0.side, others) && ip in TakeSample(Run(Next(w0, Sample(others)), after).side, others')
    ensures var w0 := Run(START, es);
            var w1 := Next(w0, Sample(others));
            var w := Run(w1, after);
            var sampled, now := TakeSample(w0.side, others), TakeSample(w.side, others');
            && w.prev == sampled
            && ExactCases(Delta(sampled[ip], now[ip]), DisconnectedDuring(w1, after, ip), sampled[ip],
                          BookOf(w, ip).session.bytes, Counted(BookOf(w, ip)).bytes - Counted(BookOf(w0, ip)).bytes)
  {
    var w0 := Run(START, es);
    var w1 := Next(w0, Sample(others));
    SampledCounters(es, others, after, ip);
    if DisconnectedDuring(w1, after, ip) {
      NewSessionIsPart(w1, after, ip);
    } else {
      SessionGoesOn(w1, after, ip);
    }
    ExactCasesHold(BookOf(w0, ip), BookOf(Run(w1, after), ip), DisconnectedDuring(w1, after, ip));
  }
}
