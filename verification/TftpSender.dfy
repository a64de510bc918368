/**
 The sending side of one transfer as a machine that reads one event at a time.
 `TftpServe` proves that the socket code follows this machine; `TftpFifo` and
 `TftpAsync` run it against a client over two kinds of channel.
 */
module TftpSender {
  import opened TftpBlocks

  /** Times one message is sent before the transfer is given up. */
  const RETRIES := 12

  /** What the transfer socket reports; Noise is anything the ACK loop skips. */
  datatype Input = Ack(number: nat) | Noise | Timeout | Broken

  /** Everything a transfer has read, oldest first. */
  datatype Log = Nothing | Then(earlier: Log, e: Input)

  /** `index` is the message awaiting its ACK (0 is the OACK), `tries` how often it was sent. */
  datatype Sender =
    | Awaiting(index: nat, tries: nat)
    | Completed
    | GaveUp(at: nat)

  ghost predicate ValidSender(p: Params, s: Sender) {
    match s
    case Awaiting(i, t) => FirstIndex(p) <= i <= BlockCount(p) && 1 <= t <= RETRIES
    case Completed => true
    case GaveUp(i) => FirstIndex(p) <= i <= BlockCount(p)
  }

  function StartSender(p: Params): Sender {
    Awaiting(FirstIndex(p), 1)
  }

  /** Index of the message the sender is working on or was when it stopped. */
  function Working(p: Params, s: Sender): nat {
    match s
    case Awaiting(i, _) => i
    case Completed => BlockCount(p)
    case GaveUp(i) => i
  }

  /** The last DATA block is the one shorter than the block size. */
  predicate IsLast(p: Params, i: nat) {
    i >= 1 && |Block(p, i)| < p.blockSize
  }

  function NextSender(p: Params, s: Sender, e: Input): Sender {
    if !s.Awaiting? then s else
    match e
    case Ack(n) =>
      if n != Number(s.index) then s
      else if IsLast(p, s.index) then Completed
      else Awaiting(s.index + 1, 1)
    case Noise => s
    case Timeout => if s.tries < RETRIES then Awaiting(s.index, s.tries + 1) else GaveUp(s.index)
    case Broken => GaveUp(s.index)
  }

  /** Where the ACK of message i takes the sender. */
  function MovedOn(p: Params, i: nat): Sender {
    if i == BlockCount(p) then Completed else Awaiting(i + 1, 1)
  }

  /** What is transmitted while handling one event. */
  function Emitted(p: Params, s: Sender, e: Input): (out: seq<Packet>)
    ensures |out| <= 1
  {
    if !s.Awaiting? then [] else
    match e
    case Ack(n) =>
      if n == Number(s.index) && !IsLast(p, s.index) then [PacketAt(p, s.index + 1)] else []
    case Timeout => if s.tries < RETRIES then [PacketAt(p, s.index)] else []
    case _ => []
  }

  /** State after a whole log of events. */
  function SenderAfter(p: Params, log: Log): Sender {
    match log
    case Nothing => StartSender(p)
    case Then(earlier, e) => NextSender(p, SenderAfter(p, earlier), e)
  }

  /** Everything transmitted during a log, starting with the first message. */
  function SentDuring(p: Params, log: Log): seq<Packet> {
    match log
    case Nothing => [PacketAt(p, FirstIndex(p))]
    case Then(earlier, e) => SentDuring(p, earlier) + Emitted(p, SenderAfter(p, earlier), e)
  }

  function DataCount(ps: seq<Packet>): nat {
    if ps == [] then 0 else DataCount(ps[..|ps| - 1]) + if ps[|ps| - 1].DataPacket? then 1 else 0
  }

  lemma SenderStaysValid(p: Params, s: Sender, e: Input)
    requires ValidSender(p, s)
    ensures ValidSender(p, NextSender(p, s, e))
  {
    if s.Awaiting? && s.index >= 1 {
      OnlyLastBlockIsShort(p, s.index);
    }
  }

  /** Budget of DATA transmissions used up when a sender is in state s. */
  function DataBudget(p: Params, s: Sender): nat {
    match s
    case Awaiting(i, t) => if i == 0 then 0 else RETRIES * (i - 1) + t
    case Completed => RETRIES * BlockCount(p)
    case GaveUp(i) => RETRIES * i
  }

  lemma DataBudgetPays(p: Params, s: Sender, e: Input)
    requires ValidSender(p, s)
    ensures DataCount(Emitted(p, s, e)) <= DataBudget(p, NextSender(p, s, e)) - DataBudget(p, s)
  {
  }

  lemma {:induction false} DataCountConcat(a: seq<Packet>, b: seq<Packet>)
    requires |b| <= 1
    ensures DataCount(a + b) == DataCount(a) + DataCount(b)
  {
    if b == [] {
      assert a + b == a;
    } else {
      assert (a + b)[..|a + b| - 1] == a && b[..0] == [];
    }
  }

  lemma DataCountOfOne(pkt: Packet)
    ensures DataCount([pkt]) == if pkt.DataPacket? then 1 else 0
  {
  }

  lemma {:induction false} RunStaysWithinBudget(p: Params, log: Log)
    ensures ValidSender(p, SenderAfter(p, log))
    ensures DataCount(SentDuring(p, log)) <= DataBudget(p, SenderAfter(p, log))
  {
    match log
    case Nothing => DataCountOfOne(PacketAt(p, FirstIndex(p)));
    case Then(earlier, e) =>
      RunStaysWithinBudget(p, earlier);
      SenderStaysValid(p, SenderAfter(p, earlier), e);
      DataBudgetPays(p, SenderAfter(p, earlier), e);
      DataCountConcat(SentDuring(p, earlier), Emitted(p, SenderAfter(p, earlier), e));
  }

  /**
   Whatever arrives, in whatever order, one transfer transmits at most 12 DATA
   packets per block: stale and duplicate ACKs never multiply traffic
   (section 4.2.3.1 of RFC 1123).
   */
  lemma TrafficIsBounded(p: Params, log: Log)
    ensures DataCount(SentDuring(p, log)) <= 12 * (|p.file| / p.blockSize + 1)
  {
    RunStaysWithinBudget(p, log);
    BlockCountIsDivision(p);
  }

  lemma {:induction false} SilenceRetransmits(p: Params, log: Log, i: nat, k: nat) returns (log': Log)
    requires k < RETRIES && i >= 1 && SenderAfter(p, log) == Awaiting(i, 1)
    ensures SenderAfter(p, log') == Awaiting(i, 1 + k)
    ensures DataCount(SentDuring(p, log')) == DataCount(SentDuring(p, log)) + k
  {
    log' := log;
    if k > 0 {
      log' := SilenceRetransmits(p, log, i, k - 1);
      DataCountConcat(SentDuring(p, log'), [PacketAt(p, i)]);
      DataCountOfOne(PacketAt(p, i));
      log' := Then(log', Timeout);
    }
  }

  /** The ACK that ends a block brings out the next one, if any. */
  lemma AckMovesOn(p: Params, log: Log, i: nat, t: nat)
    requires 1 <= i <= BlockCount(p) && SenderAfter(p, log) == Awaiting(i, t)
    ensures var last, log' := i == BlockCount(p), Then(log, Ack(Number(i)));
            && SenderAfter(p, log') == (if last then Completed else Awaiting(i + 1, 1))
            && DataCount(SentDuring(p, log')) == DataCount(SentDuring(p, log)) + if last then 0 else 1
  {
    var e := Ack(Number(i));
    var out := Emitted(p, Awaiting(i, t), e);
    OnlyLastBlockIsShort(p, i);
    assert SentDuring(p, Then(log, e)) == SentDuring(p, log) + out;
    DataCountConcat(SentDuring(p, log), out);
    if i == BlockCount(p) {
      assert out == [];
    } else {
      assert out == [PacketAt(p, i + 1)];
      DataCountOfOne(PacketAt(p, i + 1));
    }
  }

  /** A client that answers the OACK, if there is one, brings the sender to block 1 with one DATA packet sent. */
  lemma ReachesFirstBlock(p: Params) returns (log: Log)
    ensures SenderAfter(p, log) == Awaiting(1, 1) && DataCount(SentDuring(p, log)) == 1
  {
    log := Nothing;
    DataCountOfOne(PacketAt(p, FirstIndex(p)));
    if p.oack != [] {
      DataCountConcat(SentDuring(p, log), [PacketAt(p, 1)]);
      DataCountOfOne(PacketAt(p, 1));
      log := Then(log, Ack(0));
    }
  }

  /** The traffic bound cannot be improved for any file and options: some client makes every block cost 12 packets. */
  lemma {:induction false} TrafficBoundIsTight(p: Params, n: nat) returns (log: Log)
    requires n <= BlockCount(p)
    ensures SenderAfter(p, log) == if n == BlockCount(p) then Completed else Awaiting(n + 1, 1)
    ensures DataCount(SentDuring(p, log)) == 12 * n + if n == BlockCount(p) then 0 else 1
  {
    if n == 0 {
      log := ReachesFirstBlock(p);
    } else {
      log := TrafficBoundIsTight(p, n - 1);
      log := SilenceRetransmits(p, log, n, RETRIES - 1);
      AckMovesOn(p, log, n, RETRIES);
      log := Then(log, Ack(Number(n)));
    }
  }
}
