/**
 The receiving side of a transfer: a client of sections 2, 4 and 6 of RFC 1350
 that may negotiate options (RFC 2347). It looks only at 16-bit block numbers.
 */
module TftpClient {
  import opened Common
  import opened TftpBlocks

  /** `accepted` matters only modulo 65536: it names the next number expected. */
  datatype Client = Client(oackPending: bool, accepted: nat, got: seq<Byte>, finished: bool)

  function StartClient(p: Params): Client {
    Client(p.oack != [], 0, [], false)
  }

  predicate Accepts(cl: Client, pkt: Packet) {
    match pkt
    case OackPacket(_) => cl.oackPending
    case DataPacket(n, _) => !cl.oackPending && !cl.finished && n == Number(cl.accepted + 1)
  }

  /** Handling one packet: an accepted block is appended; a short one ends the file. */
  function Receive(p: Params, cl: Client, pkt: Packet): Client {
    if !Accepts(cl, pkt) then cl else
    match pkt
    case OackPacket(_) => cl.(oackPending := false)
    case DataPacket(_, payload) =>
      cl.(accepted := cl.accepted + 1, got := cl.got + payload, finished := |payload| < p.blockSize)
  }

  /** Accepted packets are acknowledged; others are ignored or acknowledged again, as the client likes. */
  function Acknowledge(cl: Client, pkt: Packet, again: bool): (acks: seq<nat>)
    ensures |acks| <= 1
  {
    if !Accepts(cl, pkt) && !again then [] else
    match pkt
    case OackPacket(_) => [0]
    case DataPacket(n, _) => [n]
  }

  /** Index of the newest message the client has taken, -1 while it waits for the OACK. */
  function Have(cl: Client): int {
    if cl.oackPending then -1 else cl.accepted
  }

  /** What the client holds is the first `accepted` blocks of the file, and it knows when that is all. */
  ghost predicate InStep(p: Params, cl: Client) {
    && cl.accepted <= BlockCount(p)
    && cl.got == FirstBlocks(p, cl.accepted)
    && (cl.finished <==> cl.accepted == BlockCount(p))
    && (cl.oackPending ==> cl.accepted == 0 && p.oack != [])
  }

  /** Taking exactly the next message keeps the client in step. */
  lemma NextMessageKeepsStep(p: Params, cl: Client)
    requires InStep(p, cl) && !cl.finished
    ensures Accepts(cl, PacketAt(p, Have(cl) + 1))
    ensures var cl' := Receive(p, cl, PacketAt(p, Have(cl) + 1));
            InStep(p, cl') && Have(cl') == Have(cl) + 1
  {
    if !cl.oackPending {
      BlocksReassemble(p, cl.accepted);
      BlocksReassemble(p, cl.accepted + 1);
      OnlyLastBlockIsShort(p, cl.accepted + 1);
    }
  }

  /** A client in step that took the last block holds exactly the file. */
  lemma FinishedHoldsFile(p: Params, cl: Client)
    requires InStep(p, cl) && cl.finished
    ensures cl.got == p.file
  {
    BlocksReassemble(p, cl.accepted);
  }
}
