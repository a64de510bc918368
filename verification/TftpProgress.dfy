/**
 Completion over channels that keep order: a transfer goes through if, for each
 message, one of its twelve tries gets through both ways. What happens before
 that try is arbitrary: loss, repetition, silence, stray packets.
 */
module TftpProgress {
  import opened TftpBlocks
  import opened TftpSender
  import opened TftpClient
  import opened TftpFifo

  /** Everything in flight arrives: the DATA, which the client acknowledges or acknowledges again, then the ACKs. */
  function AllData(n: nat): seq<Event> {
    if n == 0 then [] else [DeliverData(true)] + AllData(n - 1)
  }

  function AllAcks(n: nat): seq<Event> {
    if n == 0 then [] else [DeliverAck] + AllAcks(n - 1)
  }

  function Arrived(p: Params, s: State): State {
    var s' := Run(p, s, AllData(|s.data|));
    Run(p, s', AllAcks(|s'.acks|))
  }

  /** One delivery at a time. */
  lemma FirstData(p: Params, s: State, n: nat)
    requires n > 0
    ensures Run(p, s, AllData(n)) == Run(p, Next(p, s, DeliverData(true)), AllData(n - 1))
  {
    assert AllData(n)[1..] == AllData(n - 1);
  }

  lemma FirstAck(p: Params, s: State, n: nat)
    requires n > 0
    ensures Run(p, s, AllAcks(n)) == Run(p, Next(p, s, DeliverAck), AllAcks(n - 1))
  {
    assert AllAcks(n)[1..] == AllAcks(n - 1);
  }

  /** The message the sender works on is in flight, or its ACK is. */
  ghost predicate UnderWay(p: Params, s: State) {
    s.snd.Awaiting? && (PacketAt(p, s.snd.index) in s.data || Number(s.snd.index) in s.acks)
  }

  lemma AcksTheMessage(p: Params, cl: Client, i: nat)
    ensures Acknowledge(cl, PacketAt(p, i), true) == [Number(i)]
  {
  }

  /** A delivery leaves the sender alone and the message under way. */
  lemma DataStaysUnderWay(p: Params, s: State)
    requires Inv(p, s) && UnderWay(p, s) && s.data != []
    ensures var s' := Next(p, s, DeliverData(true));
            Inv(p, s') && UnderWay(p, s') && s'.snd == s.snd && |s'.data| == |s.data| - 1
  {
    var i := s.snd.index;
    DeliverDataInv(p, s, true);
    if s.data[0] == PacketAt(p, i) {
      AcksTheMessage(p, s.cl, i);
    } else {
      assert PacketAt(p, i) in s.data ==> PacketAt(p, i) in s.data[1..];
    }
  }

  lemma {:induction false} AllDataArrives(p: Params, s: State)
    requires Inv(p, s) && UnderWay(p, s)
    ensures var s' := Run(p, s, AllData(|s.data|));
            Inv(p, s') && s'.snd == s.snd && s'.data == [] && Number(s.snd.index) in s'.acks
    decreases |s.data|
  {
    if s.data == [] {
      assert Run(p, s, AllData(0)) == s;
    } else {
      DataStaysUnderWay(p, s);
      var s' := Next(p, s, DeliverData(true));
      AllDataArrives(p, s');
      assert Run(p, s, AllData(|s.data|)) == Run(p, s', AllData(|s'.data|)) by {
        FirstData(p, s, |s.data|);
      }
    }
  }

  /** ACKs the sender does not wait for disappear without effect. */
  lemma {:induction false} IgnoredAcks(p: Params, s: State)
    requires s.snd.Awaiting? ==> forall k :: 0 <= k < |s.acks| ==> s.acks[k] != Number(s.snd.index)
    ensures Run(p, s, AllAcks(|s.acks|)) == s.(acks := [])
    decreases |s.acks|
  {
    if s.acks != [] {
      var s' := Next(p, s, DeliverAck);
      assert s' == s.(acks := s.acks[1..]) by {
        assert s.data + [] == s.data;
      }
      FirstAck(p, s, |s.acks|);
      IgnoredAcks(p, s');
    }
  }

  lemma AwaitedAck(p: Params, s: State)
    requires Inv(p, s) && s.snd.Awaiting? && s.acks != [] && s.acks[0] == Number(s.snd.index)
    ensures var s', i := Next(p, s, DeliverAck), s.snd.index;
            && s'.snd == MovedOn(p, i) && s'.acks == s.acks[1..]
            && (i < BlockCount(p) ==> s'.data == s.data + [PacketAt(p, i + 1)])
            && forall k :: 0 <= k < |s'.acks| ==> s'.acks[k] == Number(i)
  {
    var i := s.snd.index;
    if i >= 1 {
      OnlyLastBlockIsShort(p, i);
    }
    assert s.acks[0] in s.acks;
  }

  /** The awaited ACK moves the sender on; the ones behind it repeat it and are ignored. */
  lemma AwaitedAckIsEnough(p: Params, s: State)
    requires Inv(p, s) && s.snd.Awaiting? && s.acks != [] && s.acks[0] == Number(s.snd.index)
    ensures Run(p, s, AllAcks(|s.acks|)) == Next(p, s, DeliverAck).(acks := [])
  {
    FirstAck(p, s, |s.acks|);
    AwaitedAck(p, s);
    NeighboursDiffer(p, s.snd.index);
    IgnoredAcks(p, Next(p, s, DeliverAck));
  }

  lemma OtherAck(p: Params, s: State)
    requires Inv(p, s) && s.snd.Awaiting? && s.acks != [] && s.acks[0] != Number(s.snd.index)
    ensures Next(p, s, DeliverAck) == s.(acks := s.acks[1..]) && Inv(p, s.(acks := s.acks[1..]))
  {
    AckInv(p, s);
    assert s.data + [] == s.data;
  }

  lemma {:induction false} AllAcksArrive(p: Params, s: State)
    requires Inv(p, s) && s.snd.Awaiting? && Number(s.snd.index) in s.acks && s.data == []
    ensures var s', i := Run(p, s, AllAcks(|s.acks|)), s.snd.index;
            s'.snd == MovedOn(p, i) && s'.acks == [] && (i < BlockCount(p) ==> s'.data == [PacketAt(p, i + 1)])
    decreases |s.acks|
  {
    if s.acks[0] == Number(s.snd.index) {
      AwaitedAck(p, s);
      AwaitedAckIsEnough(p, s);
    } else {
      FirstAck(p, s, |s.acks|);
      OtherAck(p, s);
      assert Number(s.snd.index) in s.acks[1..];
      AllAcksArrive(p, s.(acks := s.acks[1..]));
    }
  }

  /** Only a message just sent for the first time is in flight. */
  ghost predicate JustSent(p: Params, s: State, i: nat) {
    s.snd == Awaiting(i, 1) && s.data == [PacketAt(p, i)] && s.acks == []
  }

  /** A try that gets through both ways moves the sender on, and sends the next message. */
  lemma TryGetsThrough(p: Params, s: State)
    requires Inv(p, s) && UnderWay(p, s)
    ensures var s', i := Arrived(p, s), s.snd.index;
            s'.snd == MovedOn(p, i) && (i < BlockCount(p) ==> JustSent(p, s', i + 1))
  {
    AllDataArrives(p, s);
    AllAcksArrive(p, Run(p, s, AllData(|s.data|)));
  }

  /**
   A schedule with one phase for each message from the sender's on: in each, any
   events that leave the sender at that message, so at most eleven timeouts and
   no failure, and a copy of it or its ACK still in flight; then everything in
   flight arrives.
   */
  ghost predicate EachGetsThrough(p: Params, s: State, phases: seq<seq<Event>>)
    decreases |phases|
  {
    phases == [] ||
    (var tried := Run(p, s, phases[0]);
     && s.snd.Awaiting? && tried.snd.Awaiting? && tried.snd.index == s.snd.index && UnderWay(p, tried)
     && EachGetsThrough(p, Arrived(p, tried), phases[1..]))
  }

  function Played(p: Params, s: State, phases: seq<seq<Event>>): State
    decreases |phases|
  {
    if phases == [] then s else Played(p, Arrived(p, Run(p, s, phases[0])), phases[1..])
  }

  lemma ArrivedKeepsInv(p: Params, s: State)
    requires Inv(p, s)
    ensures Inv(p, Arrived(p, s))
  {
    RunInv(p, s, AllData(|s.data|));
    var s' := Run(p, s, AllData(|s.data|));
    RunInv(p, s', AllAcks(|s'.acks|));
  }

  lemma {:induction false} PhasesComplete(p: Params, s: State, phases: seq<seq<Event>>)
    requires Inv(p, s) && s.snd.Awaiting? && EachGetsThrough(p, s, phases)
    requires |phases| == BlockCount(p) - s.snd.index + 1
    ensures Inv(p, Played(p, s, phases)) && Played(p, s, phases).snd == Completed
    decreases |phases|
  {
    var tried := Run(p, s, phases[0]);
    RunInv(p, s, phases[0]);
    TryGetsThrough(p, tried);
    ArrivedKeepsInv(p, tried);
    if s.snd.index < BlockCount(p) {
      PhasesComplete(p, Arrived(p, tried), phases[1..]);
    } else {
      assert phases[1..] == [];
    }
  }

  /** Any such schedule, over all messages, ends with the sender content and the client holding the file. */
  lemma TransferCompletes(p: Params, phases: seq<seq<Event>>)
    requires EachGetsThrough(p, Start(p), phases) && |phases| == BlockCount(p) - FirstIndex(p) + 1
    ensures var s := Played(p, Start(p), phases);
            s.snd == Completed && s.cl.finished && s.cl.got == p.file
  {
    StartInv(p);
    PhasesComplete(p, Start(p), phases);
    FinishedHoldsFile(p, Played(p, Start(p), phases).cl);
  }

  // Eleven lost tries are not too many, twelve are.

  /** Tries lost with everything in flight: one packet is lost, then the next one sent. */
  function LostTries(k: nat): seq<Event> {
    if k == 0 then [] else [LoseData(0), Silence] + LostTries(k - 1)
  }

  lemma {:induction false} LostTriesAreTried(p: Params, s: State, k: nat)
    requires s.snd.Awaiting? && s.snd.tries + k <= RETRIES && s.data == [PacketAt(p, s.snd.index)] && s.acks == []
    ensures Run(p, s, LostTries(k)) == s.(snd := Awaiting(s.snd.index, s.snd.tries + k))
    decreases k
  {
    if k > 0 {
      var es := LostTries(k);
      var lost := Next(p, s, LoseData(0));
      assert lost == s.(data := []);
      var again := Next(p, lost, Silence);
      assert again == s.(snd := Awaiting(s.snd.index, s.snd.tries + 1)) by {
        assert [] + [PacketAt(p, s.snd.index)] == s.data;
      }
      assert es[0] == LoseData(0) && es[1..][0] == Silence && es[1..][1..] == LostTries(k - 1);
      LostTriesAreTried(p, again, k - 1);
    }
  }

  /** One phase of k lost tries for each of n messages. */
  function LostTriesEach(k: nat, n: nat): seq<seq<Event>> {
    if n == 0 then [] else [LostTries(k)] + LostTriesEach(k, n - 1)
  }

  /** After fewer than twelve lost tries the message is under way. */
  lemma LostButUnderWay(p: Params, s: State, i: nat, k: nat)
    requires JustSent(p, s, i) && k < RETRIES
    ensures var tried := Run(p, s, LostTries(k)); UnderWay(p, tried) && tried.snd.index == i
  {
    LostTriesAreTried(p, s, k);
    assert s.data[0] in s.data;
  }

  /** The last try of the phase gets through, and the next message is sent. */
  lemma LossesThenArrival(p: Params, s: State, i: nat, k: nat)
    requires Inv(p, s) && JustSent(p, s, i) && k < RETRIES
    ensures var tried := Run(p, s, LostTries(k));
            && UnderWay(p, tried) && tried.snd.index == i && Inv(p, Arrived(p, tried))
            && (i < BlockCount(p) ==> JustSent(p, Arrived(p, tried), i + 1))
  {
    LostButUnderWay(p, s, i, k);
    var tried := Run(p, s, LostTries(k));
    RunInv(p, s, LostTries(k));
    TryGetsThrough(p, tried);
    ArrivedKeepsInv(p, tried);
  }

  /** Putting one phase in front of a schedule. */
  lemma OnePhaseMore(p: Params, s: State, phase: seq<Event>, phases: seq<seq<Event>>)
    requires var tried := Run(p, s, phase);
             && s.snd.Awaiting? && UnderWay(p, tried) && tried.snd.index == s.snd.index
             && EachGetsThrough(p, Arrived(p, tried), phases)
    ensures EachGetsThrough(p, s, [phase] + phases)
  {
    assert ([phase] + phases)[1..] == phases;
  }

  lemma {:induction false} LossesAreSurvived(p: Params, s: State, i: nat, k: nat, n: nat)
    requires Inv(p, s) && JustSent(p, s, i) && k < RETRIES && n == BlockCount(p) - i + 1
    ensures EachGetsThrough(p, s, LostTriesEach(k, n)) && |LostTriesEach(k, n)| == n
    decreases n
  {
    if n > 0 {
      LossesThenArrival(p, s, i, k);
      if i < BlockCount(p) {
        LossesAreSurvived(p, Arrived(p, Run(p, s, LostTries(k))), i + 1, k, n - 1);
      }
      OnePhaseMore(p, s, LostTries(k), LostTriesEach(k, n - 1));
    }
  }

  /** A sender that has given up stays so. */
  lemma {:induction false} GaveUpForGood(p: Params, s: State, k: nat)
    requires s.snd.GaveUp?
    ensures Run(p, s, LostTries(k)).snd == s.snd
    decreases k
  {
    if k > 0 {
      var es, again := LostTries(k), Next(p, Next(p, s, LoseData(0)), Silence);
      assert es[0] == LoseData(0) && es[1..][0] == Silence && es[1..][1..] == LostTries(k - 1);
      assert Run(p, s, es) == Run(p, again, LostTries(k - 1));
      GaveUpForGood(p, again, k - 1);
    }
  }

  lemma {:induction false} LastTryLost(p: Params, s: State, k: nat)
    requires s.snd.Awaiting? && s.snd.tries <= RETRIES < s.snd.tries + k && s.data == [PacketAt(p, s.snd.index)]
    ensures Run(p, s, LostTries(k)).snd == GaveUp(s.snd.index)
    decreases k
  {
    var es, lost := LostTries(k), Next(p, s, LoseData(0));
    var again := Next(p, lost, Silence);
    assert lost == s.(data := []);
    assert es[0] == LoseData(0) && es[1..][0] == Silence && es[1..][1..] == LostTries(k - 1);
    assert Run(p, s, es) == Run(p, again, LostTries(k - 1));
    if s.snd.tries == RETRIES {
      GaveUpForGood(p, again, k - 1);
    } else {
      assert again == s.(snd := Awaiting(s.snd.index, s.snd.tries + 1)) by {
        assert [] + [PacketAt(p, s.snd.index)] == s.data;
      }
      LastTryLost(p, again, k - 1);
    }
  }

  /** With k lost tries before one that gets through, for each message, the file arrives exactly if k is below 12. */
  lemma LossesSurvivedIff(p: Params, k: nat)
    ensures var s := Played(p, Start(p), LostTriesEach(k, BlockCount(p) - FirstIndex(p) + 1));
            k < 12 ==> s.snd == Completed && s.cl.finished && s.cl.got == p.file
    ensures k >= 12 ==> Run(p, Start(p), LostTries(k)).snd == GaveUp(FirstIndex(p))
  {
    var s, i := Start(p), FirstIndex(p);
    StartInv(p);
    if k < RETRIES {
      LossesAreSurvived(p, s, i, k, BlockCount(p) - i + 1);
      TransferCompletes(p, LostTriesEach(k, BlockCount(p) - i + 1));
    } else {
      LastTryLost(p, s, k);
    }
  }
}
