/**
 How a file is cut into TFTP blocks, and how block numbers and packets look on
 the wire (sections 2 and 5 of RFC 1350; section 2 of RFC 2347).
 */
module TftpBlocks {
  import opened Common

  /** Block numbers are 16 bits wide and wrap silently. */
  const WRAP := 0x1_0000

  /** What one transfer serves; `oack` is empty when nothing was negotiated. */
  datatype TransferParams = TransferParams(file: seq<Byte>, blockSize: nat, oack: seq<Byte>)
  type Params = p: TransferParams | p.blockSize > 0 witness TransferParams([], 1, [])

  datatype Packet =
    | OackPacket(body: seq<Byte>)
    | DataPacket(number: nat, payload: seq<Byte>)

  /** The wire number of block i. */
  function Number(i: nat): (n: nat)
    ensures n < WRAP
  {
    i % WRAP
  }

  /** Reads of at most b bytes until the first short one, when n bytes are left. */
  function Reads(n: nat, b: nat): (k: nat)
    requires b > 0
    ensures k >= 1
    decreases n
  {
    if n < b then 1 else 1 + Reads(n - b, b)
  }

  /** Number of DATA blocks: the last one is short, possibly empty. */
  function BlockCount(p: Params): (k: nat)
    ensures k >= 1
  {
    Reads(|p.file|, p.blockSize)
  }

  /** File offset at which block i+1 starts: i reads of at most one block each. */
  function Offset(p: Params, i: nat): (off: nat)
    ensures off <= |p.file|
  {
    if i == 0 then 0
    else if |p.file| - Offset(p, i - 1) < p.blockSize then |p.file|
    else Offset(p, i - 1) + p.blockSize
  }

  /** The first i blocks of the file. */
  function FirstBlocks(p: Params, i: nat): seq<Byte> {
    p.file[..Offset(p, i)]
  }

  /** Payload of block i, counting from 1. */
  function Block(p: Params, i: nat): (b: seq<Byte>)
    requires i >= 1
  {
    p.file[Offset(p, i - 1)..Offset(p, i)]
  }

  /** The first message of a transfer is number 0 (the OACK) or block 1. */
  function FirstIndex(p: Params): nat {
    if p.oack == [] then 1 else 0
  }

  /** Message i of the transfer: the OACK counts as block 0. */
  function PacketAt(p: Params, i: nat): Packet {
    if i == 0 then OackPacket(p.oack) else DataPacket(Number(i), Block(p, i))
  }

  /** Bytes of a packet: an OACK body carries its own opcode, DATA has opcode 3 and a big-endian number. */
  function Encode(pkt: Packet): seq<Byte> {
    match pkt
    case OackPacket(body) => body
    case DataPacket(n, payload) => [0, 3, n / 256 % 256, n % 256] + payload
  }

  /** What a receiver reads off the bytes of a DATA packet or an OACK. */
  function Decode(bytes: seq<Byte>): Option<Packet> {
    if |bytes| < 2 || bytes[0] != 0 then None
    else if bytes[1] == 6 then Some(OackPacket(bytes))
    else if bytes[1] == 3 && |bytes| >= 4 then Some(DataPacket(bytes[2] as int * 256 + bytes[3] as int, bytes[4..]))
    else None
  }

  /** Every message of a transfer arrives as what it was sent as. */
  lemma MessagesSurviveTheWire(p: Params, i: nat)
    requires i == 0 ==> |p.oack| >= 2 && p.oack[0] == 0 && p.oack[1] == 6
    ensures Decode(Encode(PacketAt(p, i))) == Some(PacketAt(p, i))
  {
  }

  /** The header of a DATA packet is its number, high byte first. */
  lemma DataHeader(p: Params, i: nat)
    requires i >= 1
    ensures Number(i) / 256 < 256
    ensures Encode(PacketAt(p, i)) == [0, 3, Number(i) / 256, Number(i) % 256] + Block(p, i)
  {
  }

  function Wire(ps: seq<Packet>): seq<seq<Byte>> {
    seq(|ps|, k requires 0 <= k < |ps| => Encode(ps[k]))
  }

  /** Concatenation of the payloads of blocks 1..i, in order. */
  function Reassemble(p: Params, i: nat): seq<Byte> {
    if i == 0 then [] else Reassemble(p, i - 1) + Block(p, i)
  }

  lemma {:induction false} ReadsIsDivision(n: nat, b: nat)
    requires b > 0
    ensures Reads(n, b) == n / b + 1
    decreases n
  {
    if n >= b {
      ReadsIsDivision(n - b, b);
      OneTimeMore(n - b, b);
    }
  }

  lemma OneTimeMore(n: nat, b: nat)
    requires b > 0
    ensures (n + b) / b == n / b + 1
  {
    var q := n / b;
    assert (q + 1) * b == q * b + b;
    QuotientIsUnique(n + b, b, q + 1);
  }

  /** There are as many blocks as the size divided by the block size, and one more. */
  lemma BlockCountIsDivision(p: Params)
    ensures BlockCount(p) == |p.file| / p.blockSize + 1
  {
    ReadsIsDivision(|p.file|, p.blockSize);
  }

  /** After i reads the rest of the file takes that many fewer, as long as it lasts. */
  lemma {:induction false} ReadsLeft(p: Params, i: nat)
    ensures i < BlockCount(p) ==> Reads(|p.file| - Offset(p, i), p.blockSize) == BlockCount(p) - i
    ensures i >= BlockCount(p) ==> Offset(p, i) == |p.file|
  {
    if i > 0 {
      ReadsLeft(p, i - 1);
    }
  }

  /** The file is exhausted exactly from its last block on. */
  lemma OffsetReachesEnd(p: Params, i: nat)
    ensures i < BlockCount(p) ==> (Offset(p, i) + p.blockSize > |p.file| <==> i == BlockCount(p) - 1)
    ensures i >= BlockCount(p) ==> Offset(p, i) == |p.file|
  {
    ReadsLeft(p, i);
  }

  /** Only the last block is short, possibly empty; every earlier one is full. */
  lemma OnlyLastBlockIsShort(p: Params, i: nat)
    requires 1 <= i <= BlockCount(p)
    ensures |Block(p, i)| <= p.blockSize
    ensures |Block(p, i)| < p.blockSize <==> i == BlockCount(p)
  {
    OffsetReachesEnd(p, i - 1);
  }

  /** The blocks put together are a prefix of the file, and the whole file in the end. */
  lemma {:induction false} BlocksReassemble(p: Params, i: nat)
    ensures Reassemble(p, i) == FirstBlocks(p, i)
    ensures i >= BlockCount(p) ==> Reassemble(p, i) == p.file
  {
    OffsetReachesEnd(p, i);
    if i > 0 {
      BlocksReassemble(p, i - 1);
      assert FirstBlocks(p, i - 1) + Block(p, i) == FirstBlocks(p, i);
    }
  }

  /** Neighbouring blocks differ on the wire although numbers wrap. */
  lemma NeighboursDiffer(p: Params, i: nat)
    ensures Number(i) != Number(i + 1)
    ensures PacketAt(p, i) != PacketAt(p, i + 1)
  {
  }

  /** Within one window of 65536 consecutive indices a number names one block. */
  lemma NumberInjective(i: nat, j: nat)
    requires Number(i) == Number(j) && i < j + WRAP && j < i + WRAP
    ensures i == j
  {
  }
}
