/**
 Addresses as the byte slices the DHCP server computes on, and the 32-bit
 integers they stand for. `IncIP` and `IpGreater` are the server's own loops.
 */
module Ipv4 {
  import opened Common

  /** A four-byte address. */
  type IP = s: seq<Byte> | |s| == 4 witness [0, 0, 0, 0]

  const SPACE := 0x1_0000_0000

  /** The big-endian 32-bit value of an address. */
  function Value(ip: IP): (v: nat)
    ensures v < SPACE
  {
    ip[0] as int * 0x100_0000 + ip[1] as int * 0x1_0000 + ip[2] as int * 0x100 + ip[3] as int
  }

  /** Distinct addresses have distinct values. */
  lemma ValueInjective(a: IP, b: IP)
    requires Value(a) == Value(b)
    ensures a == b
  {
    assert a[0] == b[0];
    assert a[1] == b[1];
    assert a[2] == b[2];
  }

  /** Both addresses lie in one aligned block of that many addresses. */
  ghost predicate SameBlock(a: IP, b: IP, size: nat) {
    exists k: nat :: k * size <= Value(a) < k * size + size && k * size <= Value(b) < k * size + size
  }

  lemma DividesInto(v: nat, size: nat)
    requires size > 0
    ensures v / size >= 0 && (v / size) * size <= v < (v / size) * size + size
  {
  }

  lemma SameBlockIff(a: IP, b: IP, size: nat)
    requires size > 0
    ensures SameBlock(a, b, size) <==> Value(a) / size == Value(b) / size
  {
    var v, w := Value(a), Value(b);
    DividesInto(v, size);
    DividesInto(w, size);
    if k: nat :| k * size <= v < k * size + size && k * size <= w < k * size + size {
      QuotientIsUnique(v, size, k);
      QuotientIsUnique(w, size, k);
    }
  }

  /** Trailing 255s became 0 and the byte before them, if any, grew by one. */
  lemma CarryAddsOne(ip: IP, next: IP, i: int)
    requires -1 <= i <= 3
    requires forall k :: 0 <= k < i ==> next[k] == ip[k]
    requires forall k :: i < k < 4 ==> ip[k] == 255 && next[k] == 0
    requires i >= 0 ==> next[i] as int == ip[i] as int + 1
    ensures Value(next) == if Value(ip) + 1 == SPACE then 0 else Value(ip) + 1
  {
  }

  /** `incIP`: increments a copy, carrying leftwards while bytes overflow to 0. */
  method IncIP(ip: IP) returns (next: IP)
    ensures Value(next) == if Value(ip) + 1 == SPACE then 0 else Value(ip) + 1
  {
    var b := new Byte[4](k requires 0 <= k < 4 => ip[k]);
    var i := 3;
    while i >= 0
      invariant -1 <= i <= 3
      invariant forall k :: 0 <= k <= i ==> b[k] == ip[k]
      invariant forall k :: i < k < 4 ==> ip[k] == 255 && b[k] == 0
    {
      b[i] := (b[i] as int + 1) % 256;
      if b[i] != 0 {
        break;
      }
      i := i - 1;
    }
    next := b[..];
    CarryAddsOne(ip, next, i);
  }

  /** `ipGreater`: compares byte by byte from the left, which is > on the values. */
  method IpGreater(a: IP, b: IP) returns (greater: bool)
    ensures greater <==> Value(a) > Value(b)
  {
    for i := 0 to 4
      invariant forall k :: 0 <= k < i ==> a[k] == b[k]
    {
      if a[i] > b[i] {
        return true;
      }
      if a[i] < b[i] {
        return false;
      }
    }
    return false;
  }
}
