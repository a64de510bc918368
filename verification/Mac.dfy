/** Normalisation of MAC addresses, as used for every reservation and boot-file map. */
module Mac {

  predicate IsSpace(c: char) {
    c in {' ', '\t', '\n', '\r', '\U{000B}', '\U{000C}'}
  }

  function Colon(c: char): char {
    if c == '-' then ':' else c
  }

  function Lower(c: char): char {
    if 'A' <= c <= 'Z' then c - 'A' + 'a' else c
  }

  function Colons(s: string): string {
    if s == [] then [] else [Colon(s[0])] + Colons(s[1..])
  }

  function ToLower(s: string): string {
    if s == [] then [] else [Lower(s[0])] + ToLower(s[1..])
  }

  function TrimLeft(s: string): string {
    if s == [] || !IsSpace(s[0]) then s else TrimLeft(s[1..])
  }

  function TrimRight(s: string): string {
    if s == [] || !IsSpace(s[|s| - 1]) then s else TrimRight(s[..|s| - 1])
  }

  /** Dashes become colons, outer blanks go, letters become lower case. */
  function Normalize(mac: string): string {
    ToLower(TrimRight(TrimLeft(Colons(mac))))
  }

  /** No dash, no capital and no outer blank: what normalising leaves alone. */
  predicate IsNormal(mac: string) {
    && (forall k :: 0 <= k < |mac| ==> mac[k] != '-' && !('A' <= mac[k] <= 'Z'))
    && (mac != [] ==> !IsSpace(mac[0]) && !IsSpace(mac[|mac| - 1]))
  }

  lemma {:induction false} ColonsAt(s: string)
    ensures |Colons(s)| == |s|
    ensures forall k :: 0 <= k < |s| ==> Colons(s)[k] == Colon(s[k])
  {
    if s != [] {
      ColonsAt(s[1..]);
    }
  }

  lemma {:induction false} ToLowerAt(s: string)
    ensures |ToLower(s)| == |s|
    ensures forall k :: 0 <= k < |s| ==> ToLower(s)[k] == Lower(s[k])
  {
    if s != [] {
      ToLowerAt(s[1..]);
    }
  }

  /** Trimming cuts out a middle part with no blank at either end. */
  lemma {:induction false} TrimCuts(s: string) returns (i: nat, j: nat)
    ensures i <= j <= |s| && TrimRight(TrimLeft(s)) == s[i..j]
    ensures i < j ==> !IsSpace(s[i]) && !IsSpace(s[j - 1])
    ensures forall k :: 0 <= k < i || j <= k < |s| ==> IsSpace(s[k])
  {
    if s == [] || !IsSpace(s[0]) {
      i := 0;
      j := TrimRightCuts(s);
      assert s[i..j] == s[..j];
    } else {
      i, j := TrimCuts(s[1..]);
      assert s[1..][i..j] == s[i + 1..j + 1];
      assert forall k :: 1 <= k < |s| ==> s[k] == s[1..][k - 1];
      i, j := i + 1, j + 1;
    }
  }

  lemma {:induction false} TrimRightCuts(s: string) returns (j: nat)
    ensures j <= |s| && TrimRight(s) == s[..j] && (j > 0 ==> !IsSpace(s[j - 1]))
    ensures forall k :: j <= k < |s| ==> IsSpace(s[k])
  {
    if s == [] || !IsSpace(s[|s| - 1]) {
      j := |s|;
      assert s[..j] == s;
    } else {
      var front := s[..|s| - 1];
      j := TrimRightCuts(front);
      assert front[..j] == s[..j] && (j > 0 ==> front[j - 1] == s[j - 1]);
    }
  }

  lemma NormalStays(mac: string)
    requires IsNormal(mac)
    ensures Normalize(mac) == mac
  {
    ColonsAt(mac);
    ToLowerAt(mac);
    assert Colons(mac) == mac && ToLower(mac) == mac;
  }

  lemma LowerIsNormal(c: char)
    ensures Colon(Lower(Colon(c))) == Lower(Colon(c)) && Lower(Lower(Colon(c))) == Lower(Colon(c))
    ensures IsSpace(Lower(Colon(c))) <==> IsSpace(Colon(c))
  {
  }

  /** Cutting out a middle part between non-blanks and lowering it makes it normal. */
  lemma LoweredIsNormal(mac: string, i: nat, j: nat)
    requires i <= j <= |Colons(mac)| && (i < j ==> !IsSpace(Colons(mac)[i]) && !IsSpace(Colons(mac)[j - 1]))
    ensures IsNormal(ToLower(Colons(mac)[i..j]))
  {
    var part := Colons(mac)[i..j];
    ColonsAt(mac);
    ToLowerAt(part);
    forall k | 0 <= k < |part|
      ensures ToLower(part)[k] == Lower(Colon(mac[i + k]))
    {
    }
    forall c
      ensures Colon(Lower(Colon(c))) == Lower(Colon(c)) && Lower(Lower(Colon(c))) == Lower(Colon(c))
      ensures IsSpace(Lower(Colon(c))) <==> IsSpace(Colon(c))
    {
      LowerIsNormal(c);
    }
  }

  lemma NormalizeIsNormal(mac: string)
    ensures IsNormal(Normalize(mac))
  {
    var i, j := TrimCuts(Colons(mac));
    LoweredIsNormal(mac, i, j);
  }

  /** Normalising once is enough, and exactly the normal addresses stay as they are. */
  lemma NormalizeIdempotent(mac: string)
    ensures Normalize(Normalize(mac)) == Normalize(mac)
    ensures IsNormal(mac) <==> Normalize(mac) == mac
  {
    NormalizeIsNormal(mac);
    NormalStays(Normalize(mac));
    if IsNormal(mac) {
      NormalStays(mac);
    }
  }
}
