/**
 One transfer over channels that lose and duplicate packets but keep their
 order. Block numbers wrap freely: files may have any number of blocks.
 */
module TftpFifo {
  import opened TftpBlocks
  import opened TftpSender
  import opened TftpClient

  datatype State = State(snd: Sender, cl: Client, data: seq<Packet>, acks: seq<nat>)

  /** `Deliver` takes the oldest packet; `Lose` and `Repeat` may hit any packet in flight. */
  datatype Event =
    | DeliverData(again: bool)
    | LoseData(k: nat)
    | RepeatData(k: nat)
    | DeliverAck
    | LoseAck(k: nat)
    | RepeatAck(k: nat)
    | Silence
    | Stray
    | SocketFails

  function Start(p: Params): State {
    State(StartSender(p), StartClient(p), [PacketAt(p, FirstIndex(p))], [])
  }

  function SenderReads(p: Params, s: State, e: Input): State {
    s.(snd := NextSender(p, s.snd, e), data := s.data + Emitted(p, s.snd, e))
  }

  function Lose<T>(q: seq<T>, k: nat): seq<T> {
    if k < |q| then q[..k] + q[k + 1..] else q
  }

  function Repeat<T>(q: seq<T>, k: nat): seq<T> {
    if k < |q| then q[..k + 1] + q[k..] else q
  }

  /** One event; an event that is not possible in s changes nothing. */
  function Next(p: Params, s: State, e: Event): State {
    match e
    case DeliverData(again) =>
      if s.data == [] then s
      else State(s.snd, Receive(p, s.cl, s.data[0]), s.data[1..], s.acks + Acknowledge(s.cl, s.data[0], again))
    case LoseData(k) => s.(data := Lose(s.data, k))
    case RepeatData(k) => s.(data := Repeat(s.data, k))
    case DeliverAck => if s.acks == [] then s else SenderReads(p, s.(acks := s.acks[1..]), Ack(s.acks[0]))
    case LoseAck(k) => s.(acks := Lose(s.acks, k))
    case RepeatAck(k) => s.(acks := Repeat(s.acks, k))
    case Silence => SenderReads(p, s, Timeout)
    case Stray => SenderReads(p, s, Noise)
    case SocketFails => SenderReads(p, s, Broken)
  }

  function Run(p: Params, s: State, es: seq<Event>): State
    decreases |es|
  {
    if es == [] then s else Run(p, Next(p, s, es[0]), es[1..])
  }

  /** A queue of some `older` elements (if any are allowed) followed by some `newer` ones. */
  ghost predicate Staged<T>(q: seq<T>, olderAllowed: bool, older: T, newer: T) {
    && (forall k :: 0 <= k < |q| ==> q[k] == newer || (olderAllowed && q[k] == older))
    && (forall k, l :: 0 <= k < l < |q| && q[k] == newer ==> q[l] == newer)
  }

  /**
   The client is level with the sender or one message behind. DATA in flight is
   what the client has last taken, then what it needs next; ACKs in flight are
   for the message before the sender's, then for the sender's own.
   */
  ghost predicate Inv(p: Params, s: State) {
    var i := Working(p, s.snd);
    && ValidSender(p, s.snd)
    && FirstIndex(p) <= i <= BlockCount(p)
    && InStep(p, s.cl)
    && i - 1 <= Have(s.cl) <= i
    && (s.snd.Completed? ==> Have(s.cl) == i)
    && Staged(s.data, i > FirstIndex(p) && Have(s.cl) < i, PacketAt(p, if i > 0 then i - 1 else 0), PacketAt(p, i))
    && Staged(s.acks, i > FirstIndex(p), if i > 0 then Number(i - 1) else 1, Number(i))
    && (Have(s.cl) < i ==> Number(i) !in s.acks)
  }

  /** A loss takes away the one packet, a repetition puts a copy behind it; nothing else changes. */
  lemma ChannelsLoseAndRepeat<T>(q: seq<T>, k: nat)
    requires k < |q|
    ensures |Lose(q, k)| == |q| - 1 && |Repeat(q, k)| == |q| + 1
    ensures forall i :: 0 <= i < |q| ==> (i < k ==> Lose(q, k)[i] == q[i]) && (i > k ==> Lose(q, k)[i - 1] == q[i])
    ensures forall i :: 0 <= i <= k ==> Repeat(q, k)[i] == q[i]
    ensures forall i :: k <= i < |q| ==> Repeat(q, k)[i + 1] == q[i]
  {
  }

  lemma StagedLose<T>(q: seq<T>, k: nat, ok: bool, a: T, b: T)
    requires Staged(q, ok, a, b)
    ensures Staged(Lose(q, k), ok, a, b)
    ensures b !in q ==> b !in Lose(q, k)
  {
  }

  lemma StagedRepeat<T>(q: seq<T>, k: nat, ok: bool, a: T, b: T)
    requires Staged(q, ok, a, b)
    ensures Staged(Repeat(q, k), ok, a, b)
    ensures b !in q ==> b !in Repeat(q, k)
  {
  }

  lemma StartInv(p: Params)
    ensures Inv(p, Start(p))
  {
  }

  /** Timeouts, stray packets and failures: at most the current message is sent again. */
  lemma QuietInv(p: Params, s: State, e: Input)
    requires Inv(p, s) && !e.Ack?
    ensures Inv(p, SenderReads(p, s, e))
  {
  }

  /** An ACK leaves the queue. */
  lemma DropAckInv(p: Params, s: State)
    requires Inv(p, s) && s.acks != []
    ensures Inv(p, s.(acks := s.acks[1..]))
  {
    var newest := Number(Working(p, s.snd));
    assert newest in s.acks[1..] ==> newest in s.acks;
  }

  lemma AckInv(p: Params, s: State)
    requires Inv(p, s) && s.acks != []
    ensures Inv(p, Next(p, s, DeliverAck))
  {
    var i := Working(p, s.snd);
    DropAckInv(p, s);
    if s.snd.Awaiting? && s.acks[0] == Number(i) {
      assert s.acks[0] in s.acks;
      if i >= 1 {
        OnlyLastBlockIsShort(p, i);
      }
      if IsLast(p, i) {
        CompletionInv(p, s.(acks := s.acks[1..]));
      } else {
        assert forall k :: 0 <= k < |s.acks| ==> s.acks[k] == Number(i);
        AdvanceInv(p, s, Next(p, s, DeliverAck));
      }
    }
    assert s.data + [] == s.data;
  }

  /** The sender stops after the last message when both sides are level. */
  lemma CompletionInv(p: Params, s: State)
    requires Inv(p, s) && s.snd.Awaiting? && s.snd.index == BlockCount(p) == Have(s.cl)
    ensures Inv(p, s.(snd := Completed))
  {
  }

  /** The sender moves to the next message when both sides are level. */
  lemma AdvanceInv(p: Params, s: State, s': State)
    requires Inv(p, s) && s.snd.Awaiting? && s.snd.index < BlockCount(p) && Have(s.cl) == s.snd.index
    requires s.acks != [] && forall k :: 0 <= k < |s.acks| ==> s.acks[k] == Number(s.snd.index)
    requires s'.snd == Awaiting(s.snd.index + 1, 1) && s'.cl == s.cl && s'.acks == s.acks[1..]
    requires s'.data == s.data + [PacketAt(p, s.snd.index + 1)]
    ensures Inv(p, s')
  {
  }

  /** The message the client waits for arrives. */
  lemma NewDataInv(p: Params, s: State, again: bool)
    requires Inv(p, s) && s.data != []
    requires s.data[0] == PacketAt(p, Working(p, s.snd)) && Have(s.cl) < Working(p, s.snd)
    ensures Inv(p, Next(p, s, DeliverData(again)))
  {
    var i := Working(p, s.snd);
    if i > 0 {
      NeighboursDiffer(p, i - 1);
    }
    NextMessageKeepsStep(p, s.cl);
  }

  /** A message the client already has arrives once more. */
  lemma OldDataInv(p: Params, s: State, again: bool)
    requires Inv(p, s) && s.data != []
    requires !(s.data[0] == PacketAt(p, Working(p, s.snd)) && Have(s.cl) < Working(p, s.snd))
    ensures Inv(p, Next(p, s, DeliverData(again)))
  {
    var i := Working(p, s.snd);
    if i > 0 {
      NeighboursDiffer(p, i - 1);
    }
    NeighboursDiffer(p, i);
    assert !Accepts(s.cl, s.data[0]);
  }

  lemma DeliverDataInv(p: Params, s: State, again: bool)
    requires Inv(p, s) && s.data != []
    ensures Inv(p, Next(p, s, DeliverData(again)))
  {
    if s.data[0] == PacketAt(p, Working(p, s.snd)) && Have(s.cl) < Working(p, s.snd) {
      NewDataInv(p, s, again);
    } else {
      OldDataInv(p, s, again);
    }
  }

  /** Losing or repeating a packet in flight. */
  lemma DataChannelInv(p: Params, s: State, k: nat)
    requires Inv(p, s)
    ensures Inv(p, s.(data := Lose(s.data, k))) && Inv(p, s.(data := Repeat(s.data, k)))
  {
    var i := Working(p, s.snd);
    var a, b := PacketAt(p, if i > 0 then i - 1 else 0), PacketAt(p, i);
    StagedLose(s.data, k, i > FirstIndex(p) && Have(s.cl) < i, a, b);
    StagedRepeat(s.data, k, i > FirstIndex(p) && Have(s.cl) < i, a, b);
  }

  lemma AckChannelInv(p: Params, s: State, k: nat)
    requires Inv(p, s)
    ensures Inv(p, s.(acks := Lose(s.acks, k))) && Inv(p, s.(acks := Repeat(s.acks, k)))
  {
    var i := Working(p, s.snd);
    StagedLose(s.acks, k, i > FirstIndex(p), if i > 0 then Number(i - 1) else 1, Number(i));
    StagedRepeat(s.acks, k, i > FirstIndex(p), if i > 0 then Number(i - 1) else 1, Number(i));
  }

  lemma NextInv(p: Params, s: State, e: Event)
    requires Inv(p, s)
    ensures Inv(p, Next(p, s, e))
  {
    match e
    case DeliverData(again) => if s.data != [] { DeliverDataInv(p, s, again); }
    case LoseData(k) => DataChannelInv(p, s, k);
    case RepeatData(k) => DataChannelInv(p, s, k);
    case DeliverAck => if s.acks != [] { AckInv(p, s); }
    case LoseAck(k) => AckChannelInv(p, s, k);
    case RepeatAck(k) => AckChannelInv(p, s, k);
    case Silence => QuietInv(p, s, Timeout);
    case Stray => QuietInv(p, s, Noise);
    case SocketFails => QuietInv(p, s, Broken);
  }

  lemma {:induction false} RunInv(p: Params, s: State, es: seq<Event>)
    requires Inv(p, s)
    ensures Inv(p, Run(p, s, es))
    decreases |es|
  {
    if es != [] {
      NextInv(p, s, es[0]);
      RunInv(p, Next(p, s, es[0]), es[1..]);
    }
  }

  /**
   For files of any length and every pattern of loss, duplication, silence,
   stray packets and failure of the sender's socket: the client holds a prefix
   of the file cut at a block boundary, and when the sender finishes without
   error it holds exactly the file and knows that it does.
   */
  lemma FifoTransferIsCorrect(p: Params, es: seq<Event>)
    ensures var s := Run(p, Start(p), es);
            && s.cl.accepted <= BlockCount(p)
            && s.cl.got == Reassemble(p, s.cl.accepted)
            && s.cl.got <= p.file
            && (s.cl.finished || s.snd.Completed? ==> s.cl.finished && s.cl.got == p.file)
  {
    StartInv(p);
    RunInv(p, Start(p), es);
    var s := Run(p, Start(p), es);
    BlocksReassemble(p, s.cl.accepted);
  }
}
