/**
 One transfer over channels that may also reorder packets without bound, after
 an OACK phase, while duplicate requests make the reader send block 1 again.
 */
module TftpAsync {
  import opened TftpBlocks
  import opened TftpSender
  import opened TftpClient

  /** `data` and `acks` hold every packet ever sent: each may arrive never, late, or many times. */
  datatype State = State(snd: Sender, cl: Client, data: set<Packet>, acks: set<nat>, dataSent: nat, repeats: nat)

  datatype Event =
    | DeliverData(pkt: Packet, again: bool)
    | DeliverAck(number: nat)
    | Silence
    | Stray
    | SocketFails
    | RepeatedRequest

  function ToSet<T(==)>(q: seq<T>): set<T> {
    set x | x in q
  }

  function Start(p: Params): State {
    State(StartSender(p), StartClient(p), {PacketAt(p, FirstIndex(p))}, {}, DataCount([PacketAt(p, FirstIndex(p))]), 0)
  }

  function SenderReads(p: Params, s: State, e: Input): State {
    var out := Emitted(p, s.snd, e);
    s.(snd := NextSender(p, s.snd, e), data := s.data + ToSet(out), dataSent := s.dataSent + DataCount(out))
  }

  /** Block 1 is ready once the OACK phase is over; a socket closed since then only loses the packet. */
  predicate BlockOneReady(snd: Sender) {
    snd.Completed? || (snd.Awaiting? && snd.index >= 1) || (snd.GaveUp? && snd.at >= 1)
  }

  /** One event; an event that is not possible in s changes nothing. */
  function Next(p: Params, s: State, e: Event): State {
    match e
    case DeliverData(pkt, again) =>
      if pkt !in s.data then s
      else s.(cl := Receive(p, s.cl, pkt), acks := s.acks + ToSet(Acknowledge(s.cl, pkt, again)))
    case DeliverAck(n) => if n !in s.acks then s else SenderReads(p, s, Ack(n))
    case Silence => SenderReads(p, s, Timeout)
    case Stray => SenderReads(p, s, Noise)
    case SocketFails => SenderReads(p, s, Broken)
    case RepeatedRequest =>
      if !BlockOneReady(s.snd) then s.(repeats := s.repeats + 1)
      else s.(data := s.data + {PacketAt(p, 1)}, dataSent := s.dataSent + 1, repeats := s.repeats + 1)
  }

  function Run(p: Params, s: State, es: seq<Event>): State
    decreases |es|
  {
    if es == [] then s else Run(p, Next(p, s, es[0]), es[1..])
  }

  /** No two messages of the transfer share a 16-bit number. */
  predicate NumbersUnique(p: Params) {
    BlockCount(p) < FirstIndex(p) + WRAP
  }

  ghost predicate IsMessage(p: Params, pkt: Packet, low: int, high: int) {
    exists x: nat :: low <= x <= high && pkt == PacketAt(p, x)
  }

  ghost predicate IsNumber(n: nat, low: int, high: int) {
    exists x: nat :: low <= x <= high && n == Number(x)
  }

  ghost predicate Inv(p: Params, s: State) {
    var i := Working(p, s.snd);
    && ValidSender(p, s.snd)
    && FirstIndex(p) <= i <= BlockCount(p)
    && InStep(p, s.cl)
    && i - 1 <= Have(s.cl) <= i
    && (s.snd.Completed? ==> Have(s.cl) == i)
    && (forall pkt :: pkt in s.data ==> IsMessage(p, pkt, FirstIndex(p), i))
    && (forall n :: n in s.acks ==> IsNumber(n, FirstIndex(p), Have(s.cl)))
  }

  lemma StartInv(p: Params)
    ensures Inv(p, Start(p))
  {
  }

  /** A message of the transfer is old, or just the one the client waits for. */
  lemma OldOrNext(p: Params, s: State, x: nat)
    requires Inv(p, s) && NumbersUnique(p) && FirstIndex(p) <= x <= Working(p, s.snd)
    ensures if Accepts(s.cl, PacketAt(p, x)) then x == Have(s.cl) + 1 else x <= Have(s.cl)
  {
    if Accepts(s.cl, PacketAt(p, x)) && x > 0 {
      NumberInjective(x, s.cl.accepted + 1);
    }
  }

  /** The client stays in step, and what it acknowledges, it has. */
  lemma ClientHandles(p: Params, s: State, x: nat, again: bool)
    requires Inv(p, s) && NumbersUnique(p) && FirstIndex(p) <= x <= Working(p, s.snd)
    ensures var cl' := Receive(p, s.cl, PacketAt(p, x));
            && InStep(p, cl') && Have(s.cl) <= Have(cl') <= Working(p, s.snd)
            && forall n :: n in Acknowledge(s.cl, PacketAt(p, x), again) ==> n == Number(x) && x <= Have(cl')
  {
    OldOrNext(p, s, x);
    if Accepts(s.cl, PacketAt(p, x)) {
      NextMessageKeepsStep(p, s.cl);
    }
  }

  lemma DeliverDataInv(p: Params, s: State, pkt: Packet, again: bool)
    requires Inv(p, s) && NumbersUnique(p) && pkt in s.data
    ensures Inv(p, Next(p, s, DeliverData(pkt, again)))
  {
    var i, s' := Working(p, s.snd), Next(p, s, DeliverData(pkt, again));
    assert IsMessage(p, pkt, FirstIndex(p), i);
    var x: nat :| FirstIndex(p) <= x <= i && pkt == PacketAt(p, x);
    ClientHandles(p, s, x, again);
    forall n | n in s'.acks
      ensures IsNumber(n, FirstIndex(p), Have(s'.cl))
    {
      assert n in s.acks ==> IsNumber(n, FirstIndex(p), Have(s.cl));
    }
  }

  lemma ReadInv(p: Params, s: State, e: Input)
    requires Inv(p, s) && NumbersUnique(p)
    requires e.Ack? ==> e.number in s.acks
    ensures Inv(p, SenderReads(p, s, e))
  {
    var i, s' := Working(p, s.snd), SenderReads(p, s, e);
    SenderStaysValid(p, s.snd, e);
    if s.snd.Awaiting? && e.Ack? && e.number == Number(i) {
      assert IsNumber(e.number, FirstIndex(p), Have(s.cl));
      var x: nat :| FirstIndex(p) <= x <= Have(s.cl) && e.number == Number(x);
      NumberInjective(x, i);
      if i >= 1 {
        OnlyLastBlockIsShort(p, i);
      }
    }
    forall pkt | pkt in s'.data
      ensures IsMessage(p, pkt, FirstIndex(p), Working(p, s'.snd))
    {
      if pkt in s.data {
        assert IsMessage(p, pkt, FirstIndex(p), i);
      } else {
        assert pkt == PacketAt(p, Working(p, s'.snd));
      }
    }
  }

  lemma NextInv(p: Params, s: State, e: Event)
    requires Inv(p, s) && NumbersUnique(p)
    ensures Inv(p, Next(p, s, e))
  {
    match e
    case DeliverData(pkt, again) => if pkt in s.data { DeliverDataInv(p, s, pkt, again); }
    case DeliverAck(n) => if n in s.acks { ReadInv(p, s, Ack(n)); }
    case Silence => ReadInv(p, s, Timeout);
    case Stray => ReadInv(p, s, Noise);
    case SocketFails => ReadInv(p, s, Broken);
    case RepeatedRequest =>
      if BlockOneReady(s.snd) { assert IsMessage(p, PacketAt(p, 1), FirstIndex(p), Working(p, s.snd)); }
  }

  lemma {:induction false} RunInv(p: Params, s: State, es: seq<Event>)
    requires Inv(p, s) && NumbersUnique(p)
    ensures Inv(p, Run(p, s, es))
    decreases |es|
  {
    if es != [] {
      NextInv(p, s, es[0]);
      RunInv(p, Next(p, s, es[0]), es[1..]);
    }
  }

  /** What a client may rely on in state s: a prefix of the file, and all of it once the sender is content. */
  ghost predicate Faithful(p: Params, s: State) {
    && s.cl.accepted <= BlockCount(p)
    && s.cl.got == Reassemble(p, s.cl.accepted)
    && s.cl.got <= p.file
    && (s.cl.finished || s.snd.Completed? ==> s.cl.finished && s.cl.got == p.file)
  }

  ghost predicate AlwaysFaithful(p: Params) {
    forall es: seq<Event> :: Faithful(p, Run(p, Start(p), es))
  }

  lemma UniqueNumbersSuffice(p: Params)
    requires NumbersUnique(p)
    ensures AlwaysFaithful(p)
  {
    forall es: seq<Event>
      ensures Faithful(p, Run(p, Start(p), es))
    {
      StartInv(p);
      RunInv(p, Start(p), es);
      BlocksReassemble(p, Run(p, Start(p), es).cl.accepted);
    }
  }

  // When numbers repeat, stale ACKs carry the sender past blocks the client never saw.

  lemma {:induction false} RunConcat(p: Params, s: State, a: seq<Event>, b: seq<Event>)
    ensures Run(p, s, a + b) == Run(p, Run(p, s, a), b)
    decreases |a|
  {
    if a == [] {
      assert a + b == b;
    } else {
      assert (a + b)[0] == a[0] && (a + b)[1..] == a[1..] + b;
      RunConcat(p, Next(p, s, a[0]), a[1..], b);
    }
  }

  /** The undisturbed run up to message m: the client lags by one and every earlier ACK was sent. */
  ghost predicate JustSent(p: Params, s: State, m: nat) {
    && FirstIndex(p) <= m <= BlockCount(p)
    && s.snd == Awaiting(m, 1)
    && InStep(p, s.cl) && Have(s.cl) == m - 1
    && PacketAt(p, m) in s.data
    && (forall x: nat :: FirstIndex(p) <= x < m ==> Number(x) in s.acks)
  }

  lemma RunSnoc(p: Params, s: State, es: seq<Event>, e: Event)
    ensures Run(p, s, es + [e]) == Next(p, Run(p, s, es), e)
  {
    RunConcat(p, s, es, [e]);
    assert [e][1..] == [];
  }

  /** One undisturbed exchange: message m arrives, then its ACK. */
  lemma Exchange(p: Params, s: State, m: nat)
    requires JustSent(p, s, m) && m < BlockCount(p)
    ensures JustSent(p, Next(p, Next(p, s, DeliverData(PacketAt(p, m), false)), DeliverAck(Number(m))), m + 1)
  {
    NextMessageKeepsStep(p, s.cl);
    var s1 := Next(p, s, DeliverData(PacketAt(p, m), false));
    assert s1.acks == s.acks + {Number(m)};
    if m >= 1 {
      OnlyLastBlockIsShort(p, m);
    }
  }

  lemma {:induction false} UndisturbedRun(p: Params, m: nat) returns (es: seq<Event>)
    requires FirstIndex(p) <= m <= BlockCount(p)
    ensures JustSent(p, Run(p, Start(p), es), m)
  {
    es := [];
    if m > FirstIndex(p) {
      es := UndisturbedRun(p, m - 1);
      Exchange(p, Run(p, Start(p), es), m - 1);
      RunSnoc(p, Start(p), es, DeliverData(PacketAt(p, m - 1), false));
      es := es + [DeliverData(PacketAt(p, m - 1), false)];
      RunSnoc(p, Start(p), es, DeliverAck(Number(m - 1)));
      es := es + [DeliverAck(Number(m - 1))];
    }
  }

  /** With every number among the old ACKs, the sender completes on its own. */
  lemma {:induction false} StaleAcksComplete(p: Params, s: State) returns (es: seq<Event>)
    requires s.snd.Awaiting? && 1 <= s.snd.index <= BlockCount(p)
    requires forall n: nat :: n < WRAP ==> n in s.acks
    ensures Run(p, s, es).snd.Completed? && Run(p, s, es).cl == s.cl
    decreases BlockCount(p) - s.snd.index
  {
    var e := DeliverAck(Number(s.snd.index));
    var s' := Next(p, s, e);
    OnlyLastBlockIsShort(p, s.snd.index);
    if s.snd.index < BlockCount(p) {
      es := StaleAcksComplete(p, s');
      assert ([e] + es)[1..] == es;
      es := [e] + es;
    } else {
      es := [e];
      assert es[1..] == [];
    }
  }

  lemma RepeatedNumbersFail(p: Params)
    requires !NumbersUnique(p)
    ensures !AlwaysFaithful(p)
  {
    var m := FirstIndex(p) + WRAP;
    var es := UndisturbedRun(p, m);
    var s := Run(p, Start(p), es);
    forall n: nat | n < WRAP
      ensures n in s.acks
    {
      var x: nat := if n < FirstIndex(p) then n + WRAP else n;
      assert Number(x) == n;
    }
    var more := StaleAcksComplete(p, s);
    RunConcat(p, Start(p), es, more);
    assert !Faithful(p, Run(p, Start(p), es + more));
  }

  /**
   Under unbounded reordering and repeated requests the transfer is faithful on
   every run exactly when block numbers do not repeat: up to 65535 blocks after
   an OACK, up to 65536 without one.
   */
  lemma FaithfulExactlyWhenNumbersUnique(p: Params)
    ensures AlwaysFaithful(p) <==> BlockCount(p) <= if p.oack == [] then 65536 else 65535
  {
    if NumbersUnique(p) {
      UniqueNumbersSuffice(p);
    } else {
      RepeatedNumbersFail(p);
    }
  }

  /** Each repeated request costs at most one DATA packet on top of twelve per block, on any run. */
  lemma {:induction false} RepeatsCostOnePacket(p: Params, s: State, es: seq<Event>)
    requires ValidSender(p, s.snd) && s.dataSent <= DataBudget(p, s.snd) + s.repeats
    ensures var s' := Run(p, s, es);
            ValidSender(p, s'.snd) && s'.dataSent <= DataBudget(p, s'.snd) + s'.repeats
    decreases |es|
  {
    if es != [] {
      var e := es[0];
      if !e.DeliverData? && !e.RepeatedRequest? {
        var inp :=
          if e.DeliverAck? then Ack(e.number) else if e.Silence? then Timeout else if e.Stray? then Noise else Broken;
        SenderStaysValid(p, s.snd, inp);
        DataBudgetPays(p, s.snd, inp);
      }
      RepeatsCostOnePacket(p, Next(p, s, e), es[1..]);
    }
  }

  lemma TrafficIsBoundedWithRepeats(p: Params, es: seq<Event>)
    ensures var s := Run(p, Start(p), es);
            s.dataSent <= 12 * (|p.file| / p.blockSize + 1) + s.repeats
  {
    DataCountOfOne(PacketAt(p, FirstIndex(p)));
    RepeatsCostOnePacket(p, Start(p), es);
    BlockCountIsDivision(p);
  }

  function Repeats(k: nat): seq<Event> {
    if k == 0 then [] else [RepeatedRequest] + Repeats(k - 1)
  }

  /** And each does cost one once block 1 is ready, which is sent again. */
  lemma {:induction false} RepeatsAreAnswered(p: Params, s: State, k: nat)
    requires BlockOneReady(s.snd)
    ensures var s' := Run(p, s, Repeats(k));
            && s'.dataSent == s.dataSent + k && s'.snd == s.snd && s'.cl == s.cl
            && s'.data == if k == 0 then s.data else s.data + {PacketAt(p, 1)}
    decreases k
  {
    if k > 0 {
      assert Repeats(k)[1..] == Repeats(k - 1);
      RepeatsAreAnswered(p, Next(p, s, RepeatedRequest), k - 1);
    }
  }
}
