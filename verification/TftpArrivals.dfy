/**
 A whole transfer by the bytes that arrive: a client that acknowledges each
 message in one of its twelve tries is served to the end, whatever else comes in
 between.
 */
module TftpArrivals {
  import opened Common
  import opened TftpBlocks
  import opened TftpSender
  import opened TftpServe

  /** The machine from state s on, over a list of arrivals. */
  function Hears(p: Params, client: UdpAddr, s: Sender, arrivals: seq<Arrival>): Sender
    decreases |arrivals|
  {
    if arrivals == [] then s else Hears(p, client, NextSender(p, s, Classify(arrivals[0], client)), arrivals[1..])
  }

  lemma {:induction false} HearsConcat(p: Params, client: UdpAddr, s: Sender, a: seq<Arrival>, b: seq<Arrival>)
    ensures Hears(p, client, s, a + b) == Hears(p, client, Hears(p, client, s, a), b)
    decreases |a|
  {
    if a == [] {
      assert a + b == b;
    } else {
      assert (a + b)[1..] == a[1..] + b;
      HearsConcat(p, client, NextSender(p, s, Classify(a[0], client)), a[1..], b);
    }
  }

  lemma HearsOne(p: Params, client: UdpAddr, s: Sender, a: Arrival)
    ensures Hears(p, client, s, [a]) == NextSender(p, s, Classify(a, client))
  {
    assert [a][1..] == [];
  }

  /** It is where the first n reads of the socket take the machine. */
  lemma {:induction false} HeardIsHears(p: Params, client: UdpAddr, arrivals: seq<Arrival>, n: nat)
    requires n <= |arrivals|
    ensures SenderAfter(p, Heard(arrivals, client, n)) == Hears(p, client, StartSender(p), arrivals[..n])
    decreases n
  {
    if n > 0 {
      HeardIsHears(p, client, arrivals, n - 1);
      assert arrivals[..n] == arrivals[..n - 1] + [arrivals[n - 1]];
      HearsConcat(p, client, StartSender(p), arrivals[..n - 1], [arrivals[n - 1]]);
      HearsOne(p, client, Hears(p, client, StartSender(p), arrivals[..n - 1]), arrivals[n - 1]);
    }
  }

  function Timeouts(arrivals: seq<Arrival>): nat {
    if arrivals == [] then 0 else Timeouts(arrivals[1..]) + if arrivals[0] == DeadlineExceeded then 1 else 0
  }

  /**
   What arrives while message i is being sent: its ACK last, any other datagrams
   before it, at most eleven timeouts, no failure.
   */
  ghost predicate Answers(client: UdpAddr, i: nat, chunk: seq<Arrival>) {
    && chunk != [] && IsAckOf(chunk[|chunk| - 1], client, i % 0x1_0000)
    && (forall k :: 0 <= k < |chunk| - 1 ==> chunk[k] != ReadFailed && !IsAckOf(chunk[k], client, i % 0x1_0000))
    && Timeouts(chunk) < 12
  }

  /** Timeouts use up tries, other datagrams nothing. */
  lemma {:induction false} WaitsOn(p: Params, client: UdpAddr, i: nat, tries: nat, waiting: seq<Arrival>)
    requires tries + Timeouts(waiting) <= RETRIES
    requires forall k :: 0 <= k < |waiting| ==> waiting[k] != ReadFailed && !IsAckOf(waiting[k], client, Number(i))
    ensures Hears(p, client, Awaiting(i, tries), waiting) == Awaiting(i, tries + Timeouts(waiting))
    decreases |waiting|
  {
    if waiting != [] {
      var a := waiting[0];
      AckMeansItsNumber(a, client, Number(i));
      NoiseIff(a, client);
      var tries' := if a == DeadlineExceeded then tries + 1 else tries;
      assert NextSender(p, Awaiting(i, tries), Classify(a, client)) == Awaiting(i, tries');
      WaitsOn(p, client, i, tries', waiting[1..]);
    }
  }

  lemma {:induction false} TimeoutsOfFront(a: seq<Arrival>, last: Arrival)
    ensures Timeouts(a) <= Timeouts(a + [last])
    decreases |a|
  {
    if a != [] {
      assert (a + [last])[1..] == a[1..] + [last];
      TimeoutsOfFront(a[1..], last);
    }
  }

  lemma AnswerMovesOn(p: Params, client: UdpAddr, i: nat, chunk: seq<Arrival>)
    requires FirstIndex(p) <= i <= BlockCount(p) && Answers(client, i, chunk)
    ensures Hears(p, client, Awaiting(i, 1), chunk) == MovedOn(p, i)
  {
    var waiting, ack := chunk[..|chunk| - 1], chunk[|chunk| - 1];
    assert chunk == waiting + [ack];
    TimeoutsOfFront(waiting, ack);
    WaitsOn(p, client, i, 1, waiting);
    HearsConcat(p, client, Awaiting(i, 1), waiting, [ack]);
    HearsOne(p, client, Awaiting(i, 1 + Timeouts(waiting)), ack);
    AckMeansItsNumber(ack, client, Number(i));
    if i >= 1 {
      OnlyLastBlockIsShort(p, i);
    }
  }

  function Joined(chunks: seq<seq<Arrival>>): seq<Arrival> {
    if chunks == [] then [] else chunks[0] + Joined(chunks[1..])
  }

  lemma {:induction false} AnswersMoveOn(p: Params, client: UdpAddr, i: nat, chunks: seq<seq<Arrival>>)
    requires FirstIndex(p) <= i <= BlockCount(p) && |chunks| == BlockCount(p) - i + 1
    requires forall j :: 0 <= j < |chunks| ==> Answers(client, i + j, chunks[j])
    ensures Hears(p, client, Awaiting(i, 1), Joined(chunks)) == Completed
    decreases |chunks|
  {
    AnswerMovesOn(p, client, i, chunks[0]);
    HearsConcat(p, client, Awaiting(i, 1), chunks[0], Joined(chunks[1..]));
    if i == BlockCount(p) {
      assert Joined(chunks[1..]) == [];
    } else {
      forall j | 0 <= j < |chunks[1..]|
        ensures Answers(client, i + 1 + j, chunks[1..][j])
      {
        assert Answers(client, i + (j + 1), chunks[j + 1]);
      }
      AnswersMoveOn(p, client, i + 1, chunks[1..]);
    }
  }

  /** A client that answers every message, from the OACK or block 1 to the last block. */
  ghost predicate AnswersAll(p: Params, client: UdpAddr, chunks: seq<seq<Arrival>>) {
    && |chunks| == BlockCount(p) - FirstIndex(p) + 1
    && forall j :: 0 <= j < |chunks| ==> Answers(client, FirstIndex(p) + j, chunks[j])
  }

  /** Such a client completes the transfer, so `ServeFile` succeeds; what arrives afterwards does not matter. */
  lemma AnsweredTransferCompletes(p: Params, client: UdpAddr, chunks: seq<seq<Arrival>>, more: seq<Arrival>)
    requires AnswersAll(p, client, chunks)
    ensures Verdict(p, Joined(chunks) + more, client) == Completed
  {
    var arrivals, n := Joined(chunks) + more, |Joined(chunks)|;
    AnswersMoveOn(p, client, FirstIndex(p), chunks);
    HeardIsHears(p, client, arrivals, n);
    assert arrivals[..n] == Joined(chunks);
    VerdictOfTransfer(p, arrivals, client, n);
  }

  /** The program on such a client: it succeeds, and has sent what the machine sends when it completes. */
  method ServeAnsweringClient(
    client: UdpAddr, file: seq<Byte>, blockSize: nat, oack: seq<Byte>,
    ghost chunks: seq<seq<Arrival>>, ghost more: seq<Arrival>, inbox: seq<Arrival>)
    returns (ok: bool, sent: seq<seq<Byte>>)
    requires blockSize > 0
    requires AnswersAll(TransferParams(file, blockSize, oack), client, chunks) && inbox == Joined(chunks) + more
    ensures ok && exists log :: SenderAfter(TransferParams(file, blockSize, oack), log) == Completed
                             && sent == Wire(SentDuring(TransferParams(file, blockSize, oack), log))
  {
    ghost var p := TransferParams(file, blockSize, oack);
    var conn := new Conn(client, inbox, p);
    var st := new Transfer();
    AnsweredTransferCompletes(p, client, chunks, more);
    ok := ServeFile(conn, st, file, blockSize, oack, None);
    sent := conn.sent;
  }
}
