/**
 The request reader and the transfer goroutines, interleaved at will. They
 share the map of active transfers and, per transfer, the packet to re-send.
 */
module TftpTransfers {
  import opened Common
  import opened TftpBlocks

  /** Client address and sanitized file name, joined. */
  type Key = string

  /**
   A transfer goroutine: it streams, closes its socket, then runs its two
   deferred calls, `abort` and the removal of its map entry, in that order.
   */
  datatype Phase = Preparing | Streaming(block: nat) | Aborting | Removing | Gone

  /** `closes` counts how often the ready channel was closed. */
  datatype Transfer = Transfer(key: Key, p: Params, phase: Phase, once: bool, block1: Option<seq<Byte>>, closes: nat)

  /** The reader handles one request at a time; a duplicate makes it wait, look, then write. */
  datatype Reader = Idle | WaitingFor(id: nat) | Writing(id: nat, packet: Option<seq<Byte>>)

  datatype State = State(active: map<Key, nat>, transfers: seq<Transfer>, reader: Reader,
                         resent: seq<(nat, seq<Byte>)>)

  datatype Event =
    | Request(key: Key, p: Params)
    | ReaderLooks
    | ReaderTimesOut
    | ReaderWrites
    | SendNextBlock(id: nat)
    | Finish(id: nat)
    | Abort(id: nat)
    | Remove(id: nat)

  const START := State(map[], [], Idle, [])

  predicate Live(t: Transfer) {
    t.phase != Gone
  }

  function BlockOne(p: Params): seq<Byte> {
    Encode(PacketAt(p, 1))
  }

  /** sync.Once around storing the packet and closing the channel. */
  function SetReady(t: Transfer, packet: seq<Byte>): Transfer {
    if t.once then t else t.(once := true, block1 := Some(packet), closes := t.closes + 1)
  }

  function AbortOnce(t: Transfer): Transfer {
    if t.once then t else t.(once := true, closes := t.closes + 1)
  }

  /** Moving to block i, which offers its packet for re-sending whenever its 16-bit number is 1. */
  function StartBlock(t: Transfer, i: nat): Transfer
    requires i >= 1
  {
    var t' := t.(phase := Streaming(i));
    if Number(i) == 1 then SetReady(t', Encode(PacketAt(t.p, i))) else t'
  }

  function Advance(t: Transfer, e: Event): Transfer {
    match (e, t.phase)
    case (SendNextBlock(_), Preparing) => StartBlock(t, 1)
    case (SendNextBlock(_), Streaming(i)) => if i < BlockCount(t.p) then StartBlock(t, i + 1) else t
    case (Finish(_), Preparing) => t.(phase := Aborting)
    case (Finish(_), Streaming(_)) => t.(phase := Aborting)
    case (Abort(_), Aborting) => AbortOnce(t).(phase := Removing)
    case (Remove(_), Removing) => t.(phase := Gone)
    case _ => t
  }

  /** One event; an event that is not possible in s changes nothing. */
  function Next(s: State, e: Event): State {
    match e
    case Request(key, p) =>
      if s.reader != Idle then s
      else if key in s.active then s.(reader := WaitingFor(s.active[key]))
      else s.(active := s.active[key := |s.transfers|],
              transfers := s.transfers + [Transfer(key, p, Preparing, false, None, 0)])
    case ReaderLooks =>
      if s.reader.WaitingFor? && s.reader.id < |s.transfers| && s.transfers[s.reader.id].closes > 0
      then s.(reader := Writing(s.reader.id, s.transfers[s.reader.id].block1)) else s
    case ReaderTimesOut => if s.reader.WaitingFor? then s.(reader := Idle) else s
    case ReaderWrites =>
      if !s.reader.Writing? then s
      else if s.reader.packet.None? then s.(reader := Idle)
      else s.(reader := Idle, resent := s.resent + [(s.reader.id, s.reader.packet.value)])
    case _ =>
      if e.id >= |s.transfers| then s
      else
        var t := s.transfers[e.id];
        var s' := s.(transfers := s.transfers[e.id := Advance(t, e)]);
        if e.Remove? && t.phase == Removing then s'.(active := s.active - {t.key}) else s'
  }

  function Run(s: State, es: seq<Event>): State
    decreases |es|
  {
    if es == [] then s else Run(Next(s, es[0]), es[1..])
  }

  ghost predicate TransferInv(t: Transfer) {
    && t.closes == (if t.once then 1 else 0)
    && (t.block1 == None || t.block1 == Some(BlockOne(t.p)))
    && (t.phase.Preparing? ==> !t.once)
    && (t.phase.Streaming? ==> t.phase.block >= 1 && t.once && t.block1 != None)
    && (t.phase in {Removing, Gone} ==> t.once)
  }

  /** The map names exactly the live transfers. */
  ghost predicate MapInv(s: State) {
    && (forall id :: 0 <= id < |s.transfers| && Live(s.transfers[id]) ==>
          s.transfers[id].key in s.active && s.active[s.transfers[id].key] == id)
    && (forall k :: k in s.active ==>
          s.active[k] < |s.transfers| && s.transfers[s.active[k]].key == k && Live(s.transfers[s.active[k]]))
  }

  ghost predicate IsBlockOneOf(s: State, id: nat, packet: seq<Byte>) {
    id < |s.transfers| && packet == BlockOne(s.transfers[id].p)
  }

  ghost predicate ReaderInv(s: State) {
    && (forall k :: 0 <= k < |s.resent| ==> IsBlockOneOf(s, s.resent[k].0, s.resent[k].1))
    && match s.reader
       case Idle => true
       case WaitingFor(id) => id < |s.transfers|
       case Writing(id, packet) => id < |s.transfers| && (packet.Some? ==> IsBlockOneOf(s, id, packet.value))
  }

  ghost predicate Inv(s: State) {
    && (forall id :: 0 <= id < |s.transfers| ==> TransferInv(s.transfers[id]))
    && MapInv(s)
    && ReaderInv(s)
  }

  lemma AdvanceInv(t: Transfer, e: Event)
    requires TransferInv(t)
    ensures TransferInv(Advance(t, e))
    ensures Advance(t, e).key == t.key && Advance(t, e).p == t.p
    ensures Live(Advance(t, e)) <==> Live(t) && !(e.Remove? && t.phase == Removing)
  {
  }

  /** A step of one goroutine changes only its own transfer, and the map only when it is done. */
  lemma GoroutineInv(s: State, e: Event, id: nat)
    requires Inv(s) && id < |s.transfers|
    requires e in {SendNextBlock(id), Finish(id), Abort(id), Remove(id)}
    ensures Inv(Next(s, e))
  {
    AdvanceInv(s.transfers[id], e);
    var s' := Next(s, e);
    assert MapInv(s');
    assert forall k :: 0 <= k < |s.transfers| ==> s'.transfers[k].p == s.transfers[k].p;
  }

  lemma ReaderStepInv(s: State, e: Event)
    requires Inv(s) && (e.ReaderLooks? || e.ReaderTimesOut? || e.ReaderWrites?)
    ensures Inv(Next(s, e))
  {
  }

  lemma RequestInv(s: State, key: Key, p: Params)
    requires Inv(s)
    ensures Inv(Next(s, Request(key, p)))
  {
  }

  lemma NextInv(s: State, e: Event)
    requires Inv(s)
    ensures Inv(Next(s, e))
  {
    if e.Request? {
      RequestInv(s, e.key, e.p);
    } else if e.ReaderLooks? || e.ReaderTimesOut? || e.ReaderWrites? {
      ReaderStepInv(s, e);
    } else if e.id < |s.transfers| {
      GoroutineInv(s, e, e.id);
    }
  }

  lemma {:induction false} RunInv(s: State, es: seq<Event>)
    requires Inv(s)
    ensures Inv(Run(s, es))
    decreases |es|
  {
    if es != [] {
      NextInv(s, es[0]);
      RunInv(Next(s, es[0]), es[1..]);
    }
  }

  /**
   In every interleaving: one live transfer per key at most, which is the one
   the map names; a ready channel is closed once, and has been by the time the
   transfer is gone; every packet re-sent is its transfer's block 1.
   */
  lemma TransfersAreIsolated(es: seq<Event>)
    ensures var s := Run(START, es);
            && (forall i, j :: 0 <= i < j < |s.transfers| && Live(s.transfers[i]) && Live(s.transfers[j]) ==>
                  s.transfers[i].key != s.transfers[j].key)
            && (forall i :: 0 <= i < |s.transfers| ==>
                  var t := s.transfers[i];
                  && (Live(t) <==> t.key in s.active && s.active[t.key] == i)
                  && t.closes <= 1 && (!Live(t) ==> t.closes == 1))
            && (forall k :: 0 <= k < |s.resent| ==>
                  s.resent[k].0 < |s.transfers| && s.resent[k].1 == BlockOne(s.transfers[s.resent[k].0].p))
  {
    RunInv(START, es);
  }

  /** A map entry disappears only when the transfer that stored it removes it, and only then is restored. */
  lemma EntriesBelongToTheirTransfer(es: seq<Event>, e: Event, key: Key)
    ensures var s := Run(START, es); var s' := Next(s, e);
            key in s.active ==>
              if key in s'.active then s'.active[key] == s.active[key]
              else e == Remove(s.active[key])
  {
    RunInv(START, es);
  }

  /**
   A request while the reader is free: it starts a transfer of its own exactly
   when no live one has its key; else the reader turns to the live one.
   */
  lemma RequestStartsIff(es: seq<Event>, key: Key, p: Params)
    requires Run(START, es).reader == Idle
    ensures var s := Run(START, es); var s' := Next(s, Request(key, p));
            if exists i :: 0 <= i < |s.transfers| && Live(s.transfers[i]) && s.transfers[i].key == key
            then
              && s' == s.(reader := s'.reader)
              && s'.reader.WaitingFor? && s'.reader.id < |s.transfers|
              && Live(s.transfers[s'.reader.id]) && s.transfers[s'.reader.id].key == key
            else
              && s' == s.(transfers := s'.transfers, active := s'.active)
              && |s'.transfers| == |s.transfers| + 1 && s'.transfers[..|s.transfers|] == s.transfers
              && s'.transfers[|s.transfers|] == Transfer(key, p, Preparing, false, None, 0)
              && key !in s.active && s'.active == s.active[key := |s.transfers|]
  {
    RunInv(START, es);
  }

  /** The bytes of the first DATA packet: opcode 3, number 1, and the start of the file. */
  function FirstData(p: Params): seq<Byte> {
    [0, 3, 0, 1] + if |p.file| < p.blockSize then p.file else p.file[..p.blockSize]
  }

  lemma BlockOneIsFirstData(p: Params)
    ensures BlockOne(p) == FirstData(p)
  {
    assert Offset(p, 0) == 0 && Offset(p, 1) == if |p.file| < p.blockSize then |p.file| else p.blockSize;
    assert p.file[..|p.file|] == p.file;
    DataHeader(p, 1);
  }

  lemma RunOfThree(s: State, a: Event, b: Event, c: Event)
    ensures Run(s, [a, b, c]) == Next(Next(Next(s, a), b), c)
  {
    assert [a, b, c][1..] == [b, c] && [b, c][1..] == [c] && [c][1..] == [];
    assert Run(Next(Next(s, a), b), [c]) == Next(Next(Next(s, a), b), c);
    assert Run(Next(s, a), [b, c]) == Run(Next(Next(s, a), b), [c]);
  }

  /**
   A duplicate of a request is answered with the first DATA packet of the live
   transfer: at once while it is streaming, and as soon as the first block is
   sent while it is being prepared. Until then the reader waits; when the wait
   times out it goes on as if nothing had come.
   */
  lemma DuplicateIsAnswered(es: seq<Event>, key: Key, p: Params, id: nat)
    requires var s := Run(START, es);
             s.reader == Idle && id < |s.transfers| && Live(s.transfers[id]) && s.transfers[id].key == key
    ensures var s := Run(START, es);
            var waiting, answered := Next(s, Request(key, p)), s.resent + [(id, FirstData(s.transfers[id].p))];
            && (s.transfers[id].phase.Streaming? ==>
                  Run(s, [Request(key, p), ReaderLooks, ReaderWrites]) == s.(resent := answered))
            && (s.transfers[id].phase.Preparing? ==>
                  && Next(waiting, ReaderLooks) == waiting
                  && Run(waiting, [SendNextBlock(id), ReaderLooks, ReaderWrites]).resent == answered)
            && Next(waiting, ReaderTimesOut) == s
  {
    var s := Run(START, es);
    var t := s.transfers[id];
    RunInv(START, es);
    BlockOneIsFirstData(t.p);
    RunOfThree(s, Request(key, p), ReaderLooks, ReaderWrites);
    var waiting := Next(s, Request(key, p));
    assert waiting == s.(reader := WaitingFor(id));
    RunOfThree(waiting, SendNextBlock(id), ReaderLooks, ReaderWrites);
    if t.phase.Preparing? {
      var sent := Next(waiting, SendNextBlock(id));
      assert sent.transfers[id].block1 == Some(BlockOne(t.p)) && sent.transfers[id].closes == 1;
    }
  }
}
