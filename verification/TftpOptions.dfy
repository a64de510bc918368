/**
 Parsing of read requests and printing of option acknowledgments (RFC 2347;
 blksize of RFC 2348, tsize of RFC 2349). A string is a sequence of bytes.
 */
module TftpOptions {
  import opened Common
  import opened Mac

  const NUL := '\0'
  const DEFAULT_BLOCK_SIZE := 512
  const MAX_BLOCK_SIZE := 1468
  const MAX_INT64 := 0x7FFF_FFFF_FFFF_FFFF

  // NUL-terminated strings.

  /** Position of the first NUL, or the length if there is none. */
  function NulAt(b: string): (i: nat)
    ensures i <= |b| && (i < |b| ==> b[i] == NUL)
    ensures forall k :: 0 <= k < i ==> b[k] != NUL
  {
    if b == [] || b[0] == NUL then 0 else 1 + NulAt(b[1..])
  }

  /** The string before the first NUL and what follows it; without NUL both are empty. */
  function Split(b: string): (r: (string, string))
    ensures |r.1| <= |b| && (b != [] ==> |r.1| < |b|)
  {
    var i := NulAt(b);
    if i == |b| then ("", "") else (b[..i], b[i + 1..])
  }

  lemma SplitIs(b: string)
    ensures '\0' !in b ==> Split(b) == ("", "")
    ensures '\0' in b ==> b == Split(b).0 + ['\0'] + Split(b).1 && '\0' !in Split(b).0
  {
  }

  /** `cstring`. */
  method CString(b: string) returns (s: string, rest: string)
    ensures (s, rest) == Split(b)
    ensures '\0' !in b ==> s == "" && rest == ""
    ensures '\0' in b ==> b == s + ['\0'] + rest && '\0' !in s
  {
    SplitIs(b);
    for i := 0 to |b|
      invariant forall k :: 0 <= k < i ==> b[k] != NUL
    {
      if b[i] == NUL {
        FirstNulIsUnique(b, i);
        return b[..i], b[i + 1..];
      }
    }
    return "", "";
  }

  lemma FirstNulIsUnique(b: string, i: nat)
    requires i < |b| && b[i] == NUL && forall k :: 0 <= k < i ==> b[k] != NUL
    ensures NulAt(b) == i
  {
  }

  // The option loop.

  function ParseOptions(rest: string, opts: map<string, string>): map<string, string>
    decreases |rest|
  {
    if rest == [] then opts
    else
      var (key, r) := Split(rest);
      var (val, r2) := Split(r);
      if key == "" then opts else ParseOptions(r2, opts[ToLower(key) := val])
  }

  /** `parseRRQ`: the loop ends on every byte string. */
  method ParseRRQ(pkt: string) returns (filename: string, mode: string, opts: map<string, string>)
    requires |pkt| >= 2
    ensures filename == Split(pkt[2..]).0
    ensures mode == Split(Split(pkt[2..]).1).0
    ensures opts == ParseOptions(Split(Split(pkt[2..]).1).1, map[])
  {
    var rest;
    filename, rest := CString(pkt[2..]);
    mode, rest := CString(rest);
    opts := map[];
    ghost var all := rest;
    while |rest| > 0
      invariant ParseOptions(all, map[]) == ParseOptions(rest, opts)
      decreases |rest|
    {
      var key, r := CString(rest);
      var val, r2 := CString(r);
      if key == "" {
        break;
      }
      opts := opts[ToLower(key) := val];
      rest := r2;
    }
  }

  // Printing.

  predicate NulFree(s: string) {
    forall k :: 0 <= k < |s| ==> s[k] != NUL
  }

  function Field(s: string): string {
    s + [NUL]
  }

  function Fields(fs: seq<string>): string {
    if fs == [] then [] else Field(fs[0]) + Fields(fs[1..])
  }

  function Pairs(opts: seq<(string, string)>): string {
    if opts == [] then [] else Field(opts[0].0) + (Field(opts[0].1) + Pairs(opts[1..]))
  }

  /** What a list of options amounts to, later ones winning. */
  function MapOf(opts: seq<(string, string)>, m: map<string, string>): map<string, string> {
    if opts == [] then m else MapOf(opts[1..], m[ToLower(opts[0].0) := opts[0].1])
  }

  ghost predicate Printable(opts: seq<(string, string)>) {
    forall k :: 0 <= k < |opts| ==> opts[k].0 != "" && NulFree(opts[k].0) && NulFree(opts[k].1)
  }

  lemma SplitField(s: string, t: string)
    requires NulFree(s)
    ensures Split(Field(s) + t) == (s, t)
  {
    FirstNulIsUnique(Field(s) + t, |s|);
    assert (Field(s) + t)[..|s|] == s && (Field(s) + t)[|s| + 1..] == t;
  }

  lemma {:induction false} ParsePairsThen(opts: seq<(string, string)>, m: map<string, string>, more: string)
    requires Printable(opts)
    ensures ParseOptions(Pairs(opts) + more, m) == ParseOptions(more, MapOf(opts, m))
    decreases |opts|
  {
    if opts == [] {
      assert Pairs(opts) + more == more;
    } else {
      var rest := Pairs(opts[1..]) + more;
      assert Pairs(opts) + more == Field(opts[0].0) + (Field(opts[0].1) + rest);
      SplitField(opts[0].0, Field(opts[0].1) + rest);
      SplitField(opts[0].1, rest);
      ParsePairsThen(opts[1..], m[ToLower(opts[0].0) := opts[0].1], more);
    }
  }

  lemma ParsePairs(opts: seq<(string, string)>, m: map<string, string>)
    requires Printable(opts)
    ensures ParseOptions(Pairs(opts), m) == MapOf(opts, m)
  {
    ParsePairsThen(opts, m, []);
    assert Pairs(opts) + [] == Pairs(opts);
  }

  function RequestPacket(filename: string, mode: string, opts: seq<(string, string)>): string {
    ['\0', '\U{0001}'] + (Field(filename) + (Field(mode) + Pairs(opts)))
  }

  /** Option names that differ in more than case. */
  ghost predicate Distinct(opts: seq<(string, string)>) {
    forall k, l :: 0 <= k < l < |opts| ==> ToLower(opts[k].0) != ToLower(opts[l].0)
  }

  /** The name in lower case, letter by letter. */
  ghost predicate IsLowerOf(low: string, name: string) {
    |low| == |name| &&
    forall k :: 0 <= k < |name| ==>
      if 'A' <= name[k] <= 'Z' then low[k] as int == name[k] as int + 32 else low[k] == name[k]
  }

  lemma LowerIsToLower(low: string, name: string)
    ensures IsLowerOf(low, name) <==> low == ToLower(name)
  {
    ToLowerAt(name);
  }

  lemma {:induction false} MapOfDistinct(opts: seq<(string, string)>, m: map<string, string>)
    requires Distinct(opts)
    ensures forall k :: 0 <= k < |opts| ==>
              ToLower(opts[k].0) in MapOf(opts, m) && MapOf(opts, m)[ToLower(opts[k].0)] == opts[k].1
    ensures forall x :: x in MapOf(opts, m) && (forall k :: 0 <= k < |opts| ==> ToLower(opts[k].0) != x) ==>
            x in m && MapOf(opts, m)[x] == m[x]
    ensures forall x :: x in m && (forall k :: 0 <= k < |opts| ==> ToLower(opts[k].0) != x) ==>
            x in MapOf(opts, m) && MapOf(opts, m)[x] == m[x]
    decreases |opts|
  {
    if opts != [] {
      MapOfDistinct(opts[1..], m[ToLower(opts[0].0) := opts[0].1]);
    }
  }

  /**
   A well-formed request parses back to the file name, mode and exactly the
   options it was printed from, under their names in lower case.
   */
  lemma RequestRoundTrip(filename: string, mode: string, opts: seq<(string, string)>)
    requires NulFree(filename) && NulFree(mode) && Printable(opts) && Distinct(opts)
    ensures var body := RequestPacket(filename, mode, opts)[2..];
            var parsed := ParseOptions(Split(Split(body).1).1, map[]);
            && Split(body).0 == filename
            && Split(Split(body).1).0 == mode
            && (forall k, low :: 0 <= k < |opts| && IsLowerOf(low, opts[k].0) ==>
                  low in parsed && parsed[low] == opts[k].1)
            && (forall x :: x in parsed ==> exists k :: 0 <= k < |opts| && IsLowerOf(x, opts[k].0))
  {
    var body := RequestPacket(filename, mode, opts)[2..];
    assert body == Field(filename) + (Field(mode) + Pairs(opts));
    SplitField(filename, Field(mode) + Pairs(opts));
    SplitField(mode, Pairs(opts));
    ParsePairs(opts, map[]);
    MapOfDistinct(opts, map[]);
    forall k, low | 0 <= k < |opts|
      ensures IsLowerOf(low, opts[k].0) <==> low == ToLower(opts[k].0)
    {
      LowerIsToLower(low, opts[k].0);
    }
  }

  /** An empty name ends the options. */
  lemma EmptyNameEnds(opts: seq<(string, string)>, rest: string)
    requires Printable(opts)
    ensures ParseOptions(Pairs(opts) + (Field("") + rest), map[]) == MapOf(opts, map[])
  {
    ParsePairsThen(opts, map[], Field("") + rest);
    SplitField("", rest);
  }

  // Numbers.

  predicate IsDigit(c: char) {
    '0' <= c <= '9'
  }

  function Itoa(n: nat): string {
    if n < 10 then ['0' + n as char] else Itoa(n / 10) + ['0' + (n % 10) as char]
  }

  function Digit(c: char): nat
    requires IsDigit(c)
  {
    c as int - '0' as int
  }

  function DigitsValue(s: string): nat
    requires forall k :: 0 <= k < |s| ==> IsDigit(s[k])
  {
    if s == [] then 0 else DigitsValue(s[..|s| - 1]) * 10 + Digit(s[|s| - 1])
  }

  function Unsigned(s: string): string {
    if s != "" && (s[0] == '-' || s[0] == '+') then s[1..] else s
  }

  /** `strconv.Atoi` on a 64-bit machine; None for its errors. */
  function Atoi(s: string): Option<int> {
    var negative := s != "" && s[0] == '-';
    var digits := Unsigned(s);
    if digits == "" || exists k :: 0 <= k < |digits| && !IsDigit(digits[k]) then None
    else
      var v: int := DigitsValue(digits);
      if negative then if v <= MAX_INT64 + 1 then Some(-v) else None
      else if v <= MAX_INT64 then Some(v) else None
  }

  lemma {:induction false} ItoaDigits(n: nat)
    ensures Itoa(n) != "" && (forall k :: 0 <= k < |Itoa(n)| ==> IsDigit(Itoa(n)[k]))
    ensures DigitsValue(Itoa(n)) == n
    decreases n
  {
    if n < 10 {
      assert Itoa(n)[..0] == [];
    } else {
      ItoaDigits(n / 10);
      assert Itoa(n)[..|Itoa(n)| - 1] == Itoa(n / 10);
    }
  }

  /** Printed numbers are read back. */
  lemma AtoiOfItoa(n: nat)
    requires n <= MAX_INT64
    ensures Atoi(Itoa(n)) == Some(n)
  {
    ItoaDigits(n);
    assert IsDigit(Itoa(n)[0]);
  }

  /** A sign is read, anything else that is no digit is refused. */
  lemma AtoiSigned(n: int)
    requires 0 <= n <= MAX_INT64
    ensures Atoi("-" + Itoa(n)) == Some(-n) && Atoi("+" + Itoa(n)) == Some(n)
    ensures Atoi("") == None && Atoi("-") == None && Atoi("+") == None
  {
    ItoaDigits(n);
    assert ("-" + Itoa(n))[1..] == Itoa(n) && ("+" + Itoa(n))[1..] == Itoa(n);
  }

  lemma AtoiRefuses(s: string, k: nat)
    requires 0 < k < |s| && !IsDigit(s[k])
    ensures Atoi(s) == None
  {
    var digits := Unsigned(s);
    var at := if |digits| < |s| then k - 1 else k;
    assert digits[at] == s[k];
  }

  // Negotiation.

  /** The block size the transfer uses. */
  function BlockSize(opts: map<string, string>): (size: nat)
    ensures 1 <= size <= MAX_BLOCK_SIZE
    ensures "blksize" in opts && Atoi(opts["blksize"]).Some? && Atoi(opts["blksize"]).value > 0 ==>
              size <= Atoi(opts["blksize"]).value
  {
    if "blksize" !in opts then DEFAULT_BLOCK_SIZE
    else match Atoi(opts["blksize"])
         case None => DEFAULT_BLOCK_SIZE
         case Some(req) => if req <= 0 then DEFAULT_BLOCK_SIZE else if req > MAX_BLOCK_SIZE then MAX_BLOCK_SIZE else req
  }

  /** 512 without the option or a positive number in it, else the number asked for, but never above 1468. */
  lemma BlockSizeIs(opts: map<string, string>, n: nat)
    requires n <= MAX_INT64
    ensures "blksize" !in opts ==> BlockSize(opts) == 512
    ensures Itoa(512) == "512" && Itoa(1468) == "1468"
    ensures "blksize" in opts && opts["blksize"] == Itoa(n) ==>
              BlockSize(opts) == if n == 0 then 512 else if n <= 1468 then n else 1468
    ensures "blksize" in opts && opts["blksize"] == "-" + Itoa(n) ==> BlockSize(opts) == 512
    ensures "blksize" in opts && Atoi(opts["blksize"]) == None ==> BlockSize(opts) == 512
  {
    AtoiOfItoa(n);
    AtoiSigned(n);
  }

  /** Names and values to acknowledge, in the order in which they are printed. */
  function Acknowledged(opts: map<string, string>, blockSize: nat, fileSize: nat): seq<(string, string)> {
    (if "blksize" in opts then [("blksize", Itoa(blockSize))] else []) +
    (if "tsize" in opts then [("tsize", Itoa(fileSize))] else [])
  }

  function OackPacket(opts: map<string, string>, blockSize: nat, fileSize: nat): string {
    var pairs := Acknowledged(opts, blockSize, fileSize);
    if pairs == [] then [] else ['\0', '\U{0006}'] + Pairs(pairs)
  }

  /** `buildOACK`: nothing, or opcode 6 and the recognised options with their values. */
  method BuildOack(opts: map<string, string>, blockSize: nat, fileSize: nat) returns (pkt: string)
    ensures pkt == OackPacket(opts, blockSize, fileSize)
  {
    if |opts| == 0 {
      return [];
    }
    var fields: seq<string> := [];
    ghost var pairs := [];
    if "blksize" in opts {
      fields := fields + ["blksize", Itoa(blockSize)];
      pairs := [("blksize", Itoa(blockSize))];
    }
    if "tsize" in opts {
      fields := fields + ["tsize", Itoa(fileSize)];
      pairs := pairs + [("tsize", Itoa(fileSize))];
    }
    if |fields| == 0 {
      return [];
    }
    assert pairs == Acknowledged(opts, blockSize, fileSize);
    FieldsOfPairs(pairs, fields);
    pkt := PrintFields(['\0', '\U{0006}'], fields);
  }

  /** The loop of `buildOACK` that appends each string and a NUL. */
  method PrintFields(header: string, fields: seq<string>) returns (pkt: string)
    ensures pkt == header + Fields(fields)
  {
    pkt := header;
    for k := 0 to |fields|
      invariant pkt + Fields(fields[k..]) == header + Fields(fields)
    {
      assert fields[k..][0] == fields[k] && fields[k..][1..] == fields[k + 1..];
      pkt := pkt + fields[k];
      pkt := pkt + [NUL];
    }
    assert fields[|fields|..] == [];
  }

  lemma {:induction false} FieldsOfPairs(pairs: seq<(string, string)>, fields: seq<string>)
    requires |fields| == 2 * |pairs|
    requires forall k :: 0 <= k < |pairs| ==> fields[2 * k] == pairs[k].0 && fields[2 * k + 1] == pairs[k].1
    ensures Fields(fields) == Pairs(pairs)
    decreases |pairs|
  {
    if pairs != [] {
      assert fields[1..][0] == fields[2 * 0 + 1] && fields[1..][1..] == fields[2..];
      forall k | 0 <= k < |pairs[1..]|
        ensures fields[2..][2 * k] == pairs[1..][k].0 && fields[2..][2 * k + 1] == pairs[1..][k].1
      {
        assert fields[2..][2 * k] == fields[2 * (k + 1)] && fields[2..][2 * k + 1] == fields[2 * (k + 1) + 1];
      }
      FieldsOfPairs(pairs[1..], fields[2..]);
    }
  }

  lemma NamesAreLowerCase()
    ensures ToLower("blksize") == "blksize" && ToLower("tsize") == "tsize"
  {
    ToLowerAt("blksize");
    ToLowerAt("tsize");
  }

  lemma NumbersAreNulFree(n: nat)
    ensures NulFree(Itoa(n))
  {
  }

  lemma AcknowledgedIsPrintable(opts: map<string, string>, blockSize: nat, fileSize: nat)
    ensures Printable(Acknowledged(opts, blockSize, fileSize))
  {
    NumbersAreNulFree(blockSize);
    NumbersAreNulFree(fileSize);
    forall k | 0 <= k < |Acknowledged(opts, blockSize, fileSize)|
      ensures Acknowledged(opts, blockSize, fileSize)[k] in {("blksize", Itoa(blockSize)), ("tsize", Itoa(fileSize))}
    {
    }
  }

  lemma AcknowledgedIsDistinct(opts: map<string, string>, size: string, total: string, pairs: seq<(string, string)>)
    requires pairs == (if "blksize" in opts then [("blksize", size)] else []) +
                      (if "tsize" in opts then [("tsize", total)] else [])
    ensures Distinct(pairs)
  {
    NamesAreLowerCase();
    assert |pairs| == 2 ==> pairs[0].0 == "blksize" && pairs[1].0 == "tsize";
  }

  /**
   The client that parses our acknowledgment learns exactly the recognised
   options it asked for, with the block size the transfer uses and the true
   file size; there is no acknowledgment exactly when it asked for neither.
   */
  lemma OackTellsTheTruth(opts: map<string, string>, fileSize: nat)
    requires fileSize <= MAX_INT64
    ensures var pkt := OackPacket(opts, BlockSize(opts), fileSize);
            && (pkt == [] <==> "blksize" !in opts && "tsize" !in opts)
            && (pkt != [] ==>
                  && |pkt| >= 2 && pkt[0] == '\0' && pkt[1] == '\U{0006}'
                  && var heard := ParseOptions(pkt[2..], map[]);
                     && heard.Keys == opts.Keys * {"blksize", "tsize"}
                     && ("blksize" in opts ==> Atoi(heard["blksize"]) == Some(BlockSize(opts)))
                     && ("tsize" in opts ==> Atoi(heard["tsize"]) == Some(fileSize)))
  {
    var size, total := Itoa(BlockSize(opts)), Itoa(fileSize);
    var pairs := Acknowledged(opts, BlockSize(opts), fileSize);
    AtoiOfItoa(BlockSize(opts));
    AtoiOfItoa(fileSize);
    if pairs != [] {
      assert OackPacket(opts, BlockSize(opts), fileSize)[2..] == Pairs(pairs);
      AcknowledgedIsPrintable(opts, BlockSize(opts), fileSize);
      AcknowledgedIsDistinct(opts, size, total, pairs);
      ParsePairs(pairs, map[]);
      HeardExactly(opts, size, total, pairs);
    }
  }

  lemma HeardExactly(opts: map<string, string>, size: string, total: string, pairs: seq<(string, string)>)
    requires Distinct(pairs)
    requires pairs == (if "blksize" in opts then [("blksize", size)] else []) +
                      (if "tsize" in opts then [("tsize", total)] else [])
    ensures var heard := MapOf(pairs, map[]);
            && heard.Keys == opts.Keys * {"blksize", "tsize"}
            && ("blksize" in opts ==> heard["blksize"] == size)
            && ("tsize" in opts ==> heard["tsize"] == total)
  {
    NamesAreLowerCase();
    MapOfDistinct(pairs, map[]);
    var heard := MapOf(pairs, map[]);
    if "blksize" in opts {
      assert ToLower(pairs[0].0) in heard && heard[ToLower(pairs[0].0)] == size;
    }
    if "tsize" in opts {
      assert ToLower(pairs[|pairs| - 1].0) in heard && heard[ToLower(pairs[|pairs| - 1].0)] == total;
    }
    forall x | x in heard
      ensures x in opts.Keys * {"blksize", "tsize"}
    {
      var k :| 0 <= k < |pairs| && ToLower(pairs[k].0) == x;
    }
  }
}
