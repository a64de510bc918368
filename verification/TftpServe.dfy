/**
 The socket code of one transfer. Each method is proved to follow the machine
 of `TftpSender`, event by event and byte by byte.
 */
module TftpServe {
  import opened Common
  import opened TftpBlocks
  import opened TftpSender

  datatype UdpAddr = UdpAddr(ip: seq<Byte>, port: nat)

  /** Outcome of one read on the transfer socket. */
  datatype Arrival = Datagram(from: UdpAddr, bytes: seq<Byte>) | DeadlineExceeded | ReadFailed

  datatype AckResult = Acked | TimedOut | Failed

  const OP_ACK := 4

  function Uint16(hi: Byte, lo: Byte): nat {
    hi * 256 + lo
  }

  /** What an arrival means to a transfer with the given client. */
  function Classify(a: Arrival, client: UdpAddr): Input {
    match a
    case Datagram(from, b) =>
      if from != client || |b| < 4 || Uint16(b[0], b[1]) != OP_ACK then Noise else Ack(Uint16(b[2], b[3]))
    case DeadlineExceeded => Timeout
    case ReadFailed => Broken
  }

  function Meaning(r: AckResult, block: nat): Input {
    match r
    case Acked => Ack(block)
    case TimedOut => Timeout
    case Failed => Broken
  }

  /** The ACK of block number n from the client: opcode 4 and the number, high byte first, whatever follows. */
  predicate IsAckOf(a: Arrival, client: UdpAddr, n: nat) {
    && a.Datagram? && a.from == client && |a.bytes| >= 4
    && a.bytes[0] == 0 && a.bytes[1] == 4 && a.bytes[2] == n / 256 && a.bytes[3] == n % 256
  }

  /** The bytes of an ACK are read as its number, and no others are. */
  lemma AckMeansItsNumber(a: Arrival, client: UdpAddr, n: nat)
    requires n < 0x1_0000
    ensures Classify(a, client) == Ack(n) <==> IsAckOf(a, client, n)
  {
    if a.Datagram? && |a.bytes| >= 4 {
      BigEndian(a.bytes[2], a.bytes[3], n);
      BigEndian(a.bytes[0], a.bytes[1], 4);
    }
  }

  lemma BigEndian(hi: Byte, lo: Byte, n: nat)
    ensures Uint16(hi, lo) == n <==> hi == n / 256 && lo == n % 256
  {
  }

  /** Every other datagram, and nothing else, is skipped or stale. */
  lemma NoiseIff(a: Arrival, client: UdpAddr)
    ensures Classify(a, client) == Noise <==>
            a.Datagram? && (a.from != client || |a.bytes| < 4 || a.bytes[0] != 0 || a.bytes[1] != 4)
    ensures Classify(a, client) == Timeout <==> a == DeadlineExceeded
    ensures Classify(a, client) == Broken <==> a == ReadFailed
  {
    if a.Datagram? && |a.bytes| >= 4 {
      BigEndian(a.bytes[0], a.bytes[1], 4);
    }
  }

  /** The first k arrivals do not end the wait for an ACK. */
  ghost predicate Skipped(arrivals: seq<Arrival>, client: UdpAddr, block: nat, k: nat) {
    k <= |arrivals| && forall j :: 0 <= j < k ==> arrivals[j].Datagram? && !IsAckOf(arrivals[j], client, block)
  }

  /** The first n reads, as the machine sees them; reading past the last arrival fails. */
  function Heard(arrivals: seq<Arrival>, client: UdpAddr, n: nat): Log {
    if n == 0 then Nothing
    else Then(Heard(arrivals, client, n - 1),
              if n <= |arrivals| then Classify(arrivals[n - 1], client) else Broken)
  }

  /** Where the machine of a transfer is once everything has been read. */
  function Verdict(p: Params, arrivals: seq<Arrival>, client: UdpAddr): Sender {
    SenderAfter(p, Heard(arrivals, client, |arrivals| + 1))
  }

  /** A machine that has stopped stays as it is, and reading past the end stops it. */
  lemma {:induction false} StoppedIsVerdict(p: Params, arrivals: seq<Arrival>, client: UdpAddr, n: nat, m: nat)
    requires !SenderAfter(p, Heard(arrivals, client, n)).Awaiting? && n <= m
    ensures SenderAfter(p, Heard(arrivals, client, m)) == SenderAfter(p, Heard(arrivals, client, n))
    decreases m
  {
    if n < m {
      StoppedIsVerdict(p, arrivals, client, n, m - 1);
    }
  }

  lemma VerdictOfTransfer(p: Params, arrivals: seq<Arrival>, client: UdpAddr, n: nat)
    requires !SenderAfter(p, Heard(arrivals, client, n)).Awaiting?
    ensures Verdict(p, arrivals, client) == SenderAfter(p, Heard(arrivals, client, n))
  {
    if n <= |arrivals| + 1 {
      StoppedIsVerdict(p, arrivals, client, n, |arrivals| + 1);
    } else {
      assert !Verdict(p, arrivals, client).Awaiting?;
      StoppedIsVerdict(p, arrivals, client, |arrivals| + 1, n);
    }
  }

  function Rest(arrivals: seq<Arrival>, n: nat): seq<Arrival> {
    if n <= |arrivals| then arrivals[n..] else []
  }

  /**
   A transfer socket: `inbox` is what will still be read, `sent` what was written.
   The ghost fields run the machine of `TftpSender` on the arrivals read so far,
   the first `heard` of `arrivals`.
   */
  class Conn {
    const client: UdpAddr
    var inbox: seq<Arrival>
    var sent: seq<seq<Byte>>
    ghost const p: Params
    ghost const arrivals: seq<Arrival>
    ghost var heard: nat
    ghost var log: Log
    ghost var machine: Sender
    ghost var wire: seq<seq<Byte>>

    /** `machine` and `wire` are the state and the packets of the machine after `log`. */
    ghost predicate Tracks()
      reads this
    {
      && machine == SenderAfter(p, log) && wire == Wire(SentDuring(p, log))
      && log == Heard(arrivals, client, heard) && inbox == Rest(arrivals, heard)
    }

    constructor (client: UdpAddr, inbox: seq<Arrival>, ghost p: Params)
      ensures Tracks() && this.client == client && this.inbox == inbox && arrivals == inbox && this.p == p
      ensures sent == [] && log == Nothing && machine == StartSender(p) && wire == [Encode(PacketAt(p, FirstIndex(p)))]
    {
      this.client, this.inbox, this.arrivals, this.p, heard := client, inbox, inbox, p, 0;
      sent, log, machine, wire := [], Nothing, StartSender(p), [Encode(PacketAt(p, FirstIndex(p)))];
    }

    method Write(pkt: seq<Byte>)
      requires Tracks()
      modifies this`sent
      ensures Tracks() && sent == old(sent) + [pkt]
    {
      sent := sent + [pkt];
    }

    /** Reading past the end of `inbox` fails, as on a closed socket. */
    method Read() returns (a: Arrival)
      requires Tracks()
      modifies this`inbox, this`heard, this`log, this`machine, this`wire
      ensures Tracks()
      ensures a == if old(inbox) == [] then ReadFailed else old(inbox)[0]
      ensures inbox == if old(inbox) == [] then [] else old(inbox)[1..]
      ensures log == Then(old(log), Classify(a, client))
      ensures machine == NextSender(p, old(machine), Classify(a, client))
      ensures wire == old(wire) + Wire(Emitted(p, old(machine), Classify(a, client)))
    {
      if inbox == [] {
        a := ReadFailed;
      } else {
        a, inbox := inbox[0], inbox[1..];
      }
      ghost var e := Classify(a, client);
      wire := wire + Wire(Emitted(p, machine, e));
      machine := NextSender(p, machine, e);
      log, heard := Then(log, e), heard + 1;
    }
  }

  /** Shared with the request reader, which re-sends `block1` for duplicate requests. */
  class Transfer {
    var once: bool
    var block1: Option<seq<Byte>>
    var closes: nat

    constructor ()
      ensures !once && block1 == None && closes == 0
    {
      once, block1, closes := false, None, 0;
    }

    method SetReady(packet: seq<Byte>)
      modifies this
      ensures once && closes == old(closes) + if old(once) then 0 else 1
      ensures block1 == if old(once) then old(block1) else Some(packet)
    {
      if !once {
        once, block1, closes := true, Some(packet), closes + 1;
      }
    }

    method Abort()
      modifies this
      ensures once && closes == old(closes) + if old(once) then 0 else 1
      ensures block1 == old(block1)
    {
      if !once {
        once, closes := true, closes + 1;
      }
    }
  }

  /** The wait ended with the first arrival that is the awaited ACK, a timeout or a failure; the rest is unread. */
  ghost predicate Settled(before: seq<Arrival>, client: UdpAddr, block: nat, r: AckResult, after: seq<Arrival>) {
    exists k ::
      && 0 <= k && Skipped(before, client, block, k)
      && if k == |before| then r == Failed && after == []
         else
           && after == before[k + 1..]
           && (r == Acked <==> IsAckOf(before[k], client, block))
           && (r == TimedOut <==> before[k] == DeadlineExceeded)
           && (r == Failed <==> before[k] == ReadFailed)
  }

  /** The outcome of a wait, by what comes first. */
  lemma AckedIff(before: seq<Arrival>, client: UdpAddr, block: nat, r: AckResult, after: seq<Arrival>)
    requires Settled(before, client, block, r, after)
    ensures r == Acked <==>
            exists k :: 0 <= k < |before| && Skipped(before, client, block, k) && IsAckOf(before[k], client, block)
    ensures r == TimedOut <==>
            exists k :: 0 <= k < |before| && Skipped(before, client, block, k) && before[k] == DeadlineExceeded
  {
  }

  /** Skips everything but the awaited ACK, a timeout or a failure. */
  method WaitForAck(conn: Conn, block: nat) returns (r: AckResult)
    requires conn.Tracks() && conn.machine.Awaiting? && block == Number(conn.machine.index)
    modifies conn`inbox, conn`heard, conn`log, conn`machine, conn`wire
    ensures conn.Tracks()
    ensures conn.machine == NextSender(conn.p, old(conn.machine), Meaning(r, block))
    ensures conn.wire == old(conn.wire) + Wire(Emitted(conn.p, old(conn.machine), Meaning(r, block)))
    ensures Settled(old(conn.inbox), conn.client, block, r, conn.inbox)
  {
    ghost var k := 0;
    while true
      invariant conn.Tracks() && conn.machine == old(conn.machine) && conn.wire == old(conn.wire)
      invariant Skipped(old(conn.inbox), conn.client, block, k) && conn.inbox == old(conn.inbox)[k..]
      decreases |conn.inbox|
    {
      ghost var rest := conn.inbox;
      var a := conn.Read();
      assert rest != [] ==> old(conn.inbox)[k] == a && old(conn.inbox)[k + 1..] == rest[1..];
      match a {
        case DeadlineExceeded => return TimedOut;
        case ReadFailed => return Failed;
        case Datagram(from, buf) =>
          AckMeansItsNumber(a, conn.client, block);
          if from == conn.client && |buf| >= 4 && Uint16(buf[0], buf[1]) == OP_ACK && Uint16(buf[2], buf[3]) == block {
            return Acked;
          }
      }
      k := k + 1;
    }
  }

  /** The machine is at message i for the t-th time; that is its only packet not yet written. */
  ghost predicate AboutToSend(conn: Conn, i: nat, t: nat)
    reads conn
  {
    && conn.Tracks()
    && conn.machine == Awaiting(i, t)
    && conn.wire == conn.sent + [Encode(PacketAt(conn.p, i))]
  }

  ghost predicate Stopped(conn: Conn, s: Sender)
    reads conn
  {
    conn.Tracks() && conn.machine == s && conn.wire == conn.sent
  }

  /** What the machine does on the outcome of a wait for message i, and what goes on the wire. */
  lemma OutcomeOfTry(p: Params, i: nat, tries: nat, r: AckResult)
    ensures var s, e := Awaiting(i, tries), Meaning(r, Number(i));
            && (r.Acked? ==> if IsLast(p, i) then NextSender(p, s, e) == Completed && Wire(Emitted(p, s, e)) == []
                             else NextSender(p, s, e) == Awaiting(i + 1, 1)
                                  && Wire(Emitted(p, s, e)) == [Encode(PacketAt(p, i + 1))])
            && (r.TimedOut? ==>
                  if tries >= RETRIES then NextSender(p, s, e) == GaveUp(i) && Wire(Emitted(p, s, e)) == []
                  else NextSender(p, s, e) == Awaiting(i, tries + 1)
                       && Wire(Emitted(p, s, e)) == [Encode(PacketAt(p, i))])
            && (r.Failed? ==> NextSender(p, s, e) == GaveUp(i) && Wire(Emitted(p, s, e)) == [])
  {
  }

  /** One try: sends the message and waits. */
  method SendOnce(conn: Conn, packet: seq<Byte>, block: nat, ghost i: nat, ghost tries: nat) returns (r: AckResult)
    requires AboutToSend(conn, i, tries) && 1 <= tries <= RETRIES
    requires block == Number(i) && packet == Encode(PacketAt(conn.p, i))
    modifies conn
    ensures r.Acked? && IsLast(conn.p, i) ==> Stopped(conn, Completed)
    ensures r.Acked? && !IsLast(conn.p, i) ==> AboutToSend(conn, i + 1, 1)
    ensures r.TimedOut? && tries < RETRIES ==> AboutToSend(conn, i, tries + 1)
    ensures r.TimedOut? && tries == RETRIES ==> Stopped(conn, GaveUp(i))
    ensures r.Failed? ==> Stopped(conn, GaveUp(i))
  {
    conn.Write(packet);
    assert Stopped(conn, Awaiting(i, tries));
    r := WaitForAck(conn, block);
    OutcomeOfTry(conn.p, i, tries, r);
    assert conn.sent + [] == conn.sent;
  }

  /** Sends one message up to 12 times until it is acknowledged: both OACK (block 0) and DATA. */
  method SendUntilAcked(conn: Conn, packet: seq<Byte>, block: nat, ghost i: nat) returns (ok: bool)
    requires AboutToSend(conn, i, 1)
    requires block == Number(i) && packet == Encode(PacketAt(conn.p, i))
    modifies conn
    ensures ok && IsLast(conn.p, i) ==> Stopped(conn, Completed)
    ensures ok && !IsLast(conn.p, i) ==> AboutToSend(conn, i + 1, 1)
    ensures !ok ==> Stopped(conn, GaveUp(i))
  {
    for k := 0 to RETRIES
      invariant k < RETRIES ==> AboutToSend(conn, i, k + 1)
      invariant k == RETRIES ==> Stopped(conn, GaveUp(i))
    {
      var r := SendOnce(conn, packet, block, i, k + 1);
      if r == Failed {
        return false;
      }
      if r == Acked {
        return true;
      }
    }
    return false;
  }

  /** `f.Read(data[4:])` on a regular file: fills the buffer unless the file ends. */
  method ReadChunk(file: seq<Byte>, off: nat, data: array<Byte>) returns (n: nat)
    requires off <= |file| && data.Length >= 4
    modifies data
    ensures n == if |file| - off < data.Length - 4 then |file| - off else data.Length - 4
    ensures data[..4] == old(data[..4]) && data[4..4 + n] == file[off..off + n]
  {
    n := if |file| - off < data.Length - 4 then |file| - off else data.Length - 4;
    forall k | 0 <= k < n {
      data[4 + k] := file[off + k];
    }
  }

  /** Fills the reused buffer with block i: n bytes read, then the number patched into the header. */
  method NextPacket(file: seq<Byte>, off: nat, data: array<Byte>, block: nat, ghost p: Params, ghost i: nat)
    returns (n: nat, payload: seq<Byte>)
    requires p.file == file && data.Length == 4 + p.blockSize && data[0] == 0 && data[1] == 3
    requires 1 <= i <= BlockCount(p) && block == Number(i) && off == Offset(p, i - 1)
    modifies data
    ensures data[0] == 0 && data[1] == 3
    ensures payload == Encode(PacketAt(p, i)) && off + n == Offset(p, i)
    ensures (n < p.blockSize <==> IsLast(p, i)) && (IsLast(p, i) <==> i == BlockCount(p))
  {
    n := ReadChunk(file, off, data);
    ReadIsBlock(p, i);
    assert data[0] == data[..4][0] && data[1] == data[..4][1];
    DataHeader(p, i);
    data[2], data[3] := block / 256, block % 256;
    payload := data[..4 + n];
    assert data[..4] == [0, 3, block / 256, block % 256];
    assert payload == data[..4] + data[4..4 + n];
  }

  /**
   Streams a file to the client; read number `fault` of the file, if any, fails.
   The transcript is exactly the machine's, up to the block that could not be
   read, and the packet kept for duplicate requests is block 1 even after
   numbers wrap back to 1.
   */
  method ServeFile(conn: Conn, st: Transfer, file: seq<Byte>, blockSize: nat, oack: seq<Byte>, fault: Option<nat>)
    returns (ok: bool)
    requires blockSize > 0 && conn.p == TransferParams(file, blockSize, oack)
    requires AboutToSend(conn, FirstIndex(conn.p), 1) && conn.log == Nothing && conn.sent == []
    requires KeepsBlockOne(st, conn.p, 1)
    modifies conn, st
    ensures ok ==> conn.sent == Wire(SentDuring(conn.p, conn.log)) && SenderAfter(conn.p, conn.log) == Completed
    ensures !ok ==>
              || (conn.sent == Wire(SentDuring(conn.p, conn.log)) && SenderAfter(conn.p, conn.log).GaveUp?)
              || UnreadAt(conn, fault)
    ensures fault == None ==> (ok <==> Verdict(conn.p, conn.arrivals, conn.client) == Completed)
    ensures ok ==> st.block1 == Some(Encode(PacketAt(conn.p, 1)))
    ensures !ok ==> st.block1 == None || st.block1 == Some(Encode(PacketAt(conn.p, 1)))
    ensures st.closes == 1
  {
    if |oack| > 0 {
      ok := SendUntilAcked(conn, oack, 0, 0);
      if !ok {
        VerdictOfTransfer(conn.p, conn.arrivals, conn.client, conn.heard);
        st.Abort();
        return;
      }
    }
    ok := StreamBlocks(conn, st, file, blockSize, fault);
    if !conn.machine.Awaiting? {
      VerdictOfTransfer(conn.p, conn.arrivals, conn.client, conn.heard);
    }
    st.Abort();
  }

  /** The transfer ended because the read for this block failed: all but the block has been sent. */
  ghost predicate UnreadAt(conn: Conn, fault: Option<nat>)
    reads conn
  {
    fault.Some? && AboutToSend(conn, fault.value, 1)
  }

  /** The state kept for duplicate requests: set by block 1, never again. */
  ghost predicate KeepsBlockOne(st: Transfer, p: Params, i: nat)
    reads st
  {
    if i <= 1 then !st.once && st.block1 == None && st.closes == 0
    else st.once && st.block1 == Some(Encode(PacketAt(p, 1))) && st.closes == 1
  }

  /** The variables of the block loop before the read of block i. */
  ghost predicate AtBlock(conn: Conn, st: Transfer, data: array<Byte>, off: nat, block: nat, i: nat)
    reads conn, st, data
  {
    && data.Length == 4 + conn.p.blockSize && data[0] == 0 && data[1] == 3
    && 1 <= i <= BlockCount(conn.p) && block == Number(i) && off == Offset(conn.p, i - 1)
    && AboutToSend(conn, i, 1) && KeepsBlockOne(st, conn.p, i)
  }

  /** How the block loop leaves things when it is done. */
  ghost predicate Ended(conn: Conn, st: Transfer, fault: Option<nat>, ok: bool)
    reads conn, st
  {
    && (ok ==> Stopped(conn, Completed) && KeepsBlockOne(st, conn.p, 2))
    && (!ok ==> (conn.machine.GaveUp? && Stopped(conn, conn.machine)) || UnreadAt(conn, fault))
    && (KeepsBlockOne(st, conn.p, 1) || KeepsBlockOne(st, conn.p, 2))
  }

  /** The streaming part of `serveFile`, from block 1 until a short block is acknowledged. */
  method StreamBlocks(conn: Conn, st: Transfer, file: seq<Byte>, blockSize: nat, fault: Option<nat>) returns (ok: bool)
    requires blockSize > 0 && conn.p.file == file && conn.p.blockSize == blockSize
    requires AboutToSend(conn, 1, 1) && KeepsBlockOne(st, conn.p, 1)
    modifies conn, st
    ensures Ended(conn, st, fault, ok)
  {
    var data := new Byte[4 + blockSize](_ => 0);
    data[1] := 3;
    ok := StreamFrom(conn, st, file, data, fault);
  }

  /** Its loop, with the buffer all packets are built in. */
  method StreamFrom(conn: Conn, st: Transfer, file: seq<Byte>, data: array<Byte>, fault: Option<nat>) returns (ok: bool)
    requires conn.p.file == file && AtBlock(conn, st, data, 0, 1, 1)
    modifies conn, st, data
    ensures Ended(conn, st, fault, ok)
  {
    var block, off, i := 1, 0, 1;
    while true
      invariant AtBlock(conn, st, data, off, block, i)
      decreases BlockCount(conn.p) - i
    {
      var done;
      done, ok, off, block := ServeBlock(conn, st, file, off, data, block, i, fault);
      if done {
        break;
      }
      i := i + 1;
    }
  }

  /** One round of that loop: read, patch the header, keep block 1, send until acknowledged, move on. */
  method ServeBlock(conn: Conn, st: Transfer, file: seq<Byte>, off: nat, data: array<Byte>, block: nat, i: nat,
                    fault: Option<nat>)
    returns (done: bool, ok: bool, nextOff: nat, nextBlock: nat)
    requires conn.p.file == file && AtBlock(conn, st, data, off, block, i)
    modifies conn, st, data
    ensures done ==> Ended(conn, st, fault, ok)
    ensures !done ==> ok && i < BlockCount(conn.p) && AtBlock(conn, st, data, nextOff, nextBlock, i + 1)
  {
    if fault == Some(i) {
      return true, false, off, block;
    }
    var short;
    ok, short, nextOff, nextBlock := SendBlock(conn, st, file, off, data, block, i);
    done := !ok || short;
  }

  /** The same, for a block that can be read. */
  method SendBlock(conn: Conn, st: Transfer, file: seq<Byte>, off: nat, data: array<Byte>, block: nat, ghost i: nat)
    returns (ok: bool, short: bool, nextOff: nat, nextBlock: nat)
    requires conn.p.file == file && AtBlock(conn, st, data, off, block, i)
    modifies conn, st, data
    ensures short <==> i == BlockCount(conn.p)
    ensures KeepsBlockOne(st, conn.p, i + 1)
    ensures !ok ==> Stopped(conn, GaveUp(i))
    ensures ok && short ==> Stopped(conn, Completed)
    ensures ok && !short ==> AtBlock(conn, st, data, nextOff, nextBlock, i + 1)
  {
    var n, payload := NextPacket(file, off, data, block, conn.p, i);
    short := n < data.Length - 4;
    nextOff := off + n;
    nextBlock := NextNumber(block, i);
    KeepFirst(st, payload, block, conn.p, i);
    ok := SendUntilAcked(conn, payload, block, i);
  }

  /** A packet numbered 1 is kept for duplicate requests; only the first one that comes is. */
  method KeepFirst(st: Transfer, payload: seq<Byte>, block: nat, ghost p: Params, ghost i: nat)
    requires i >= 1 && block == Number(i) && payload == Encode(PacketAt(p, i)) && KeepsBlockOne(st, p, i)
    modifies st
    ensures KeepsBlockOne(st, p, i + 1)
  {
    if block == 1 {
      st.SetReady(payload);
    }
  }

  /** A read at the start of block i yields that block, and it is short just for the last. */
  lemma ReadIsBlock(p: Params, i: nat)
    requires 1 <= i <= BlockCount(p)
    ensures var off := Offset(p, i - 1);
            var n := if |p.file| - off < p.blockSize then |p.file| - off else p.blockSize;
            && Block(p, i) == p.file[off..off + n]
            && Offset(p, i) == off + n
            && (n < p.blockSize <==> IsLast(p, i))
            && (IsLast(p, i) <==> i == BlockCount(p))
  {
    OnlyLastBlockIsShort(p, i);
  }

  /** `block++` on a uint16 follows the numbering of blocks. */
  method NextNumber(block: nat, ghost i: nat) returns (next: nat)
    requires block == Number(i)
    ensures next == Number(i + 1)
  {
    next := (block + 1) % WRAP;
  }
}
