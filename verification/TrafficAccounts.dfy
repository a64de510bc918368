/**
 Per-client accounting in one direction over whole runs of connects,
 disconnects, traffic and samples. Books kept beside the program record,
 without any width limit, what the kernel's rules truly counted.
 `TrafficMonitor` proves that the monitor's methods make these steps.
 */
module TrafficAccounts {
  import opened TrafficChains

  /** `live` holds the counter of every rule in the kernel, `hist` the history of every client ever seen. */
  datatype Side = Side(live: map<string, Counts>, hist: map<string, Counts>)

  /** Counted in closed sessions, in the running one, and between the last reading of a rule and its deletion. */
  datatype Book = Book(past: Counts, session: Counts, lost: Counts)

  /** Bytes counted in total and in the running session when a sample was taken. */
  datatype Mark = Mark(counted: nat, session: nat)

  datatype World = World(side: Side, prev: map<string, nat>, books: map<string, Book>, marks: map<string, Mark>)

  /** `others` are addresses a sample includes although they have no rule in this direction. */
  datatype Event =
    | Connect(ip: string)
    | Disconnect(ip: string, late: Counts)
    | Traffic(ip: string, n: Counts)
    | Sample(others: set<string>)

  const START := World(Side(map[], map[]), map[], map[], map[])

  // The monitor and the kernel.

  function AddClient(s: Side, ip: string): Side {
    if ip in s.live then s
    else Side(s.live[ip := ZERO], if ip in s.hist then s.hist else s.hist[ip := ZERO])
  }

  function RemoveClient(s: Side, ip: string): Side {
    if ip !in s.live || ip !in s.hist then s
    else Side(s.live - {ip}, s.hist[ip := Wrapped(Plus(s.hist[ip], s.live[ip]))])
  }

  function Count(s: Side, ip: string, n: Counts): Side {
    if ip !in s.live then s else s.(live := s.live[ip := Wrapped(Plus(s.live[ip], n))])
  }

  function LiveOf(s: Side, ip: string): Counts {
    if ip in s.live then s.live[ip] else ZERO
  }

  function HistOf(s: Side, ip: string): Counts {
    if ip in s.hist then s.hist[ip] else ZERO
  }

  /** The historical total in a status report. */
  function Reported(s: Side, ip: string): Counts
    requires ip in s.hist
  {
    Wrapped(Plus(s.hist[ip], LiveOf(s, ip)))
  }

  function TakeSample(s: Side, others: set<string>): map<string, nat> {
    map ip | ip in s.live.Keys + others :: LiveOf(s, ip).bytes
  }

  /** The byte delta behind a rate: 0 when the counter went back. */
  function Delta(prev: nat, cur: nat): nat {
    if cur >= prev then cur - prev else 0
  }

  // The books.

  function Kept(b: Book): Counts {
    Plus(b.past, b.session)
  }

  /** Everything the rules of an address ever counted. */
  function Counted(b: Book): Counts {
    Plus(Kept(b), b.lost)
  }

  function BookOf(w: World, ip: string): Book {
    if ip in w.books then w.books[ip] else Book(ZERO, ZERO, ZERO)
  }

  /** What one event adds to the book of the address it concerns; traffic counts only while there is a rule. */
  function Written(w: World, e: Event): Book
    requires !e.Sample?
  {
    var b := BookOf(w, e.ip);
    match e
    case Connect(_) => b
    case Disconnect(ip, late) => if ip in w.side.live then Book(Kept(b), ZERO, Plus(b.lost, late)) else b
    case Traffic(ip, n) => if ip in w.side.live then b.(session := Plus(b.session, n)) else b
  }

  function Next(w: World, e: Event): World {
    match e
    case Connect(ip) => w.(side := AddClient(w.side, ip), books := w.books[ip := Written(w, e)])
    case Disconnect(ip, _) => w.(side := RemoveClient(w.side, ip), books := w.books[ip := Written(w, e)])
    case Traffic(ip, n) => w.(side := Count(w.side, ip, n), books := w.books[ip := Written(w, e)])
    case Sample(others) =>
      var sample := TakeSample(w.side, others);
      w.(prev := sample, marks := map ip | ip in sample ::
          Mark(Counted(BookOf(w, ip)).bytes, BookOf(w, ip).session.bytes))
  }

  function Run(w: World, es: seq<Event>): World
    decreases |es|
  {
    if es == [] then w else Run(Next(w, es[0]), es[1..])
  }

  // Conservation.

  /** The counter and the history of an address say, to 64 bits, what its book says. */
  ghost predicate Agree(s: Side, b: Book, ip: string) {
    && (ip in s.live ==> ip in s.hist)
    && LiveOf(s, ip) == Wrapped(b.session)
    && (ip !in s.live ==> b.session == ZERO)
    && HistOf(s, ip) == Wrapped(b.past)
  }

  ghost predicate Balanced(w: World, ip: string) {
    Agree(w.side, BookOf(w, ip), ip)
  }

  /** Only the book of the address concerned is written. */
  lemma BookAfter(w: World, e: Event, ip: string)
    ensures BookOf(Next(w, e), ip) == if !e.Sample? && e.ip == ip then Written(w, e) else BookOf(w, ip)
  {
  }

  /** Adding up wrapped parts wraps the sum. */
  lemma PartsWrap(past: Counts, session: Counts)
    ensures Wrapped(Plus(Wrapped(past), Wrapped(session))) == Wrapped(Plus(past, session))
  {
    WrappedSum(Wrapped(past), session);
    WrappedSum(past, session);
  }

  lemma RemovedClient(s: Side, x: string, ip: string)
    requires ip in s.live ==> ip in s.hist
    ensures var s' := RemoveClient(s, x);
            && LiveOf(s', ip) == (if ip == x then ZERO else LiveOf(s, ip))
            && (ip in s'.live <==> ip in s.live && ip != x) && (ip in s'.hist <==> ip in s.hist)
            && HistOf(s', ip) ==
               if ip == x && ip in s.live then Wrapped(Plus(s.hist[ip], s.live[ip])) else HistOf(s, ip)
  {
  }

  lemma DisconnectBalanced(w: World, x: string, late: Counts, ip: string)
    requires Balanced(w, ip)
    ensures Balanced(Next(w, Disconnect(x, late)), ip)
  {
    BookAfter(w, Disconnect(x, late), ip);
    RemovedClient(w.side, x, ip);
    if x == ip && ip in w.side.live {
      PartsWrap(BookOf(w, ip).past, BookOf(w, ip).session);
    }
  }

  lemma CountedClient(s: Side, x: string, n: Counts, ip: string)
    ensures var s' := Count(s, x, n);
            && s'.live.Keys == s.live.Keys && s'.hist == s.hist
            && LiveOf(s', ip) == if ip == x && ip in s.live then Wrapped(Plus(s.live[ip], n)) else LiveOf(s, ip)
  {
  }

  lemma TrafficBalanced(w: World, x: string, n: Counts, ip: string)
    requires Balanced(w, ip)
    ensures Balanced(Next(w, Traffic(x, n)), ip)
  {
    BookAfter(w, Traffic(x, n), ip);
    CountedClient(w.side, x, n, ip);
    if x == ip && ip in w.side.live {
      WrappedSum(BookOf(w, ip).session, n);
    }
  }

  lemma AddedClient(s: Side, x: string, ip: string)
    ensures var s' := AddClient(s, x);
            && LiveOf(s', ip) == LiveOf(s, ip) && HistOf(s', ip) == HistOf(s, ip)
            && (ip in s'.live <==> ip in s.live || ip == x)
            && (ip in s.hist ==> ip in s'.hist) && (ip == x && ip !in s.live ==> ip in s'.hist)
  {
  }

  lemma ConnectBalanced(w: World, x: string, ip: string)
    requires Balanced(w, ip)
    ensures Balanced(Next(w, Connect(x)), ip)
  {
    BookAfter(w, Connect(x), ip);
    AddedClient(w.side, x, ip);
  }

  lemma NextBalanced(w: World, e: Event, ip: string)
    requires Balanced(w, ip)
    ensures Balanced(Next(w, e), ip)
  {
    match e
    case Connect(x) => ConnectBalanced(w, x, ip);
    case Disconnect(x, late) => DisconnectBalanced(w, x, late, ip);
    case Traffic(x, n) => TrafficBalanced(w, x, n, ip);
    case Sample(_) =>
  }

  lemma StartIsInOrder(ip: string)
    ensures Balanced(START, ip) && Marked(START, ip)
  {
  }

  lemma {:induction false} RunBalanced(w: World, es: seq<Event>, ip: string)
    requires Balanced(w, ip)
    ensures Balanced(Run(w, es), ip)
    decreases |es|
  {
    if es != [] {
      NextBalanced(w, es[0], ip);
      RunBalanced(Next(w, es[0]), es[1..], ip);
    }
  }

  lemma ReportedIsKept(w: World, ip: string)
    requires Balanced(w, ip) && ip in w.side.hist
    ensures Reported(w.side, ip) == Wrapped(Kept(BookOf(w, ip)))
  {
    PartsWrap(BookOf(w, ip).past, BookOf(w, ip).session);
  }

  /**
   On every run the reported total of a client is all that its rules ever
   counted, less what arrived between the last reading of a counter and the
   deletion of its rule, to 64 bits.
   */
  lemma {:induction false} TotalsAreConserved(es: seq<Event>, ip: string)
    requires ip in Run(START, es).side.hist
    ensures var w := Run(START, es);
            var b := BookOf(w, ip);
            Reported(w.side, ip) ==
            Wrapped(Counts(Counted(b).bytes - b.lost.bytes, Counted(b).packets - b.lost.packets))
  {
    StartIsInOrder(ip);
    RunBalanced(START, es, ip);
    ReportedIsKept(Run(START, es), ip);
  }

  /** The bytes and packets an event brings for an address while it has a rule. */
  function BroughtBy(w: World, e: Event, ip: string): Counts {
    match e
    case Traffic(x, n) => if x == ip && ip in w.side.live then n else ZERO
    case Disconnect(x, late) => if x == ip && ip in w.side.live then late else ZERO
    case _ => ZERO
  }

  function BytesBrought(w: World, es: seq<Event>, ip: string): nat
    decreases |es|
  {
    if es == [] then 0 else BroughtBy(w, es[0], ip).bytes + BytesBrought(Next(w, es[0]), es[1..], ip)
  }

  function PacketsBrought(w: World, es: seq<Event>, ip: string): nat
    decreases |es|
  {
    if es == [] then 0 else BroughtBy(w, es[0], ip).packets + PacketsBrought(Next(w, es[0]), es[1..], ip)
  }

  ghost predicate GrowsBy(b: Book, b': Book, n: Counts) {
    Counted(b').bytes == Counted(b).bytes + n.bytes && Counted(b').packets == Counted(b).packets + n.packets
  }

  lemma SameBook(b: Book)
    ensures GrowsBy(b, b, ZERO)
  {
  }

  lemma ClosedBook(b: Book, late: Counts)
    ensures GrowsBy(b, Book(Kept(b), ZERO, Plus(b.lost, late)), late)
  {
  }

  lemma OpenBook(b: Book, n: Counts)
    ensures GrowsBy(b, b.(session := Plus(b.session, n)), n)
  {
  }

  lemma WrittenGrowsBy(w: World, e: Event, b: Book, b': Book, n: Counts)
    requires !e.Sample? && b == BookOf(w, e.ip) && b' == Written(w, e) && n == BroughtBy(w, e, e.ip)
    ensures GrowsBy(b, b', n)
  {
    if e.ip !in w.side.live || e.Connect? {
      SameBook(b);
    } else if e.Disconnect? {
      ClosedBook(b, n);
      assert b' == Book(Kept(b), ZERO, Plus(b.lost, n));
    } else {
      OpenBook(b, n);
      assert b' == b.(session := Plus(b.session, n));
    }
  }

  lemma BookGrowsBy(w: World, e: Event, ip: string)
    ensures GrowsBy(BookOf(w, ip), BookOf(Next(w, e), ip), BroughtBy(w, e, ip))
  {
    BookAfter(w, e, ip);
    if !e.Sample? && e.ip == ip {
      WrittenGrowsBy(w, e, BookOf(w, ip), Written(w, e), BroughtBy(w, e, ip));
    } else {
      assert BroughtBy(w, e, ip) == ZERO;
      SameBook(BookOf(w, ip));
    }
  }

  /**
   What the books say was counted grows by just the bytes and packets that pass
   while the client has a rule, late ones included.
   */
  lemma {:induction false} BooksGrowByTraffic(w: World, es: seq<Event>, ip: string)
    ensures GrowsBy(BookOf(w, ip), BookOf(Run(w, es), ip), Counts(BytesBrought(w, es, ip), PacketsBrought(w, es, ip)))
    decreases |es|
  {
    if es != [] {
      BookGrowsBy(w, es[0], ip);
      BooksGrowByTraffic(Next(w, es[0]), es[1..], ip);
    }
  }

  ghost predicate Grown(w: World, w': World, ip: string) {
    (ip in w.side.hist ==> ip in w'.side.hist) && BookGrown(BookOf(w, ip), BookOf(w', ip))
  }

  ghost predicate BookGrown(b: Book, b': Book) {
    && Kept(b).bytes <= Kept(b').bytes && Kept(b).packets <= Kept(b').packets
    && b.lost.bytes <= b'.lost.bytes && b.lost.packets <= b'.lost.packets
  }

  lemma WritingGrows(w: World, e: Event)
    requires !e.Sample?
    ensures BookGrown(BookOf(w, e.ip), Written(w, e))
  {
  }

  lemma NextGrows(w: World, e: Event, ip: string)
    ensures Grown(w, Next(w, e), ip)
  {
    BookAfter(w, e, ip);
    if !e.Sample? {
      WritingGrows(w, e);
    }
  }

  lemma {:induction false} RunGrows(w: World, es: seq<Event>, ip: string)
    ensures Grown(w, Run(w, es), ip)
    decreases |es|
  {
    if es != [] {
      NextGrows(w, es[0], ip);
      RunGrows(Next(w, es[0]), es[1..], ip);
    }
  }

  lemma WrapGrows(m: nat, n: nat)
    requires m <= n
    ensures n < SPACE64 ==> Wrap(m) <= Wrap(n)
  {
  }

  /** A client is never forgotten, and its reported totals never go back as long as they fit 64 bits. */
  lemma TotalsNeverDecrease(es: seq<Event>, more: seq<Event>, ip: string)
    requires ip in Run(START, es).side.hist
    ensures var w := Run(START, es);
            var w' := Run(w, more);
            && ip in w'.side.hist
            && (Kept(BookOf(w', ip)).bytes < SPACE64 ==> Reported(w.side, ip).bytes <= Reported(w'.side, ip).bytes)
            && (Kept(BookOf(w', ip)).packets < SPACE64 ==>
                Reported(w.side, ip).packets <= Reported(w'.side, ip).packets)
  {
    var w := Run(START, es);
    StartIsInOrder(ip);
    RunBalanced(START, es, ip);
    RunBalanced(w, more, ip);
    RunGrows(w, more, ip);
    ReportedIsKept(w, ip);
    ReportedIsKept(Run(w, more), ip);
    var before, after := Kept(BookOf(w, ip)), Kept(BookOf(Run(w, more), ip));
    WrapGrows(before.bytes, after.bytes);
    WrapGrows(before.packets, after.packets);
  }

  // The sampler.

  /**
   Since the sample, either the session went on and counted all the bytes that
   were counted, or a new one counted some of them.
   */
  ghost predicate MarkFits(prev: nat, m: Mark, b: Book) {
    && prev == Wrap(m.session)
    && m.counted <= Counted(b).bytes
    && (b.session.bytes <= Counted(b).bytes - m.counted
        || b.session.bytes - m.session == Counted(b).bytes - m.counted)
  }

  ghost predicate Marked(w: World, ip: string) {
    && (ip in w.prev <==> ip in w.marks)
    && (ip in w.marks ==> MarkFits(w.prev[ip], w.marks[ip], BookOf(w, ip)))
  }

  lemma WritingFits(w: World, e: Event, prev: nat, m: Mark)
    requires !e.Sample? && Balanced(w, e.ip) && MarkFits(prev, m, BookOf(w, e.ip))
    ensures MarkFits(prev, m, Written(w, e))
  {
  }

  lemma BookedMarked(w: World, e: Event, ip: string)
    requires Balanced(w, ip) && Marked(w, ip) && !e.Sample?
    ensures Marked(Next(w, e), ip)
  {
    var w' := Next(w, e);
    assert w'.prev == w.prev && w'.marks == w.marks;
    BookAfter(w, e, ip);
    if e.ip == ip && ip in w.marks {
      WritingFits(w, e, w.prev[ip], w.marks[ip]);
    }
  }

  lemma SampledMarked(w: World, others: set<string>, ip: string)
    requires Balanced(w, ip)
    ensures Marked(Next(w, Sample(others)), ip)
  {
    var w', b := Next(w, Sample(others)), BookOf(w, ip);
    BookAfter(w, Sample(others), ip);
    if ip in w'.marks {
      assert w'.prev[ip] == LiveOf(w.side, ip).bytes && w'.marks[ip] == Mark(Counted(b).bytes, b.session.bytes);
      assert MarkFits(w'.prev[ip], w'.marks[ip], b);
    }
  }

  lemma NextMarked(w: World, e: Event, ip: string)
    requires Balanced(w, ip) && Marked(w, ip)
    ensures Marked(Next(w, e), ip)
  {
    if e.Sample? {
      SampledMarked(w, e.others, ip);
    } else {
      BookedMarked(w, e, ip);
    }
  }

  lemma {:induction false} RunMarked(w: World, es: seq<Event>, ip: string)
    requires Balanced(w, ip) && Marked(w, ip)
    ensures Marked(Run(w, es), ip)
    decreases |es|
  {
    if es != [] {
      NextBalanced(w, es[0], ip);
      NextMarked(w, es[0], ip);
      RunMarked(Next(w, es[0]), es[1..], ip);
    }
  }

  /** A wrapped counter never shows more progress than was made. */
  lemma WrappedProgress(a: nat, b: nat)
    requires a <= b
    ensures Wrap(b) >= Wrap(a) ==> Wrap(b) - Wrap(a) <= b - a
  {
  }

  lemma WrapAtMost(n: nat)
    ensures Wrap(n) <= n
    ensures n < SPACE64 ==> Wrap(n) == n
  {
  }

  /**
   On every run, the delta the next sample would use for a client is at most the
   bytes truly counted for it since the previous sample, even if it
   disconnected, reconnected or wrapped in between.
   */
  lemma DeltaIsAtMostCounted(es: seq<Event>, ip: string, others: set<string>)
    requires var w := Run(START, es); ip in w.prev && ip in TakeSample(w.side, others)
    ensures var w := Run(START, es);
            && ip in w.marks
            && Delta(w.prev[ip], TakeSample(w.side, others)[ip]) <= Counted(BookOf(w, ip)).bytes - w.marks[ip].counted
  {
    StartIsInOrder(ip);
    RunBalanced(START, es, ip);
    RunMarked(START, es, ip);
    var w := Run(START, es);
    var b, m := BookOf(w, ip), w.marks[ip];
    WrapAtMost(b.session.bytes);
    if m.session <= b.session.bytes {
      WrappedProgress(m.session, b.session.bytes);
    }
  }

  /** The mark is what had been counted when the sample was taken. */
  lemma MarkIsSampleTime(w: World, others: set<string>, ip: string)
    requires ip in TakeSample(w.side, others)
    ensures var w' := Next(w, Sample(others));
            && ip in w'.marks && w'.marks[ip].counted == Counted(BookOf(w, ip)).bytes
            && w'.prev == TakeSample(w.side, others)
  {
    var sample, w' := TakeSample(w.side, others), Next(w, Sample(others));
    assert w'.prev == sample && ip in sample;
    assert w'.marks[ip] == Mark(Counted(BookOf(w, ip)).bytes, BookOf(w, ip).session.bytes);
  }
}
