/** What normalising means: which spellings of an address it identifies. */
module MacSpelling {
  import opened Mac
  import opened MacMaps

  /** Tab, line feed, vertical tab, form feed, carriage return, space. */
  predicate Blank(c: char) {
    c as int in {9, 10, 11, 12, 13, 32}
  }

  /** Equal, up to case and the choice of separator. */
  predicate SameLetter(a: char, b: char) {
    || a == b
    || (a == '-' && b == ':') || (a == ':' && b == '-')
    || ('A' <= a <= 'Z' && b as int == a as int + 32)
    || ('A' <= b <= 'Z' && a as int == b as int + 32)
  }

  /** s[i..j] is s without its outer blanks. */
  ghost predicate IsCore(s: string, i: nat, j: nat) {
    && i <= j <= |s|
    && (forall k :: 0 <= k < i || j <= k < |s| ==> Blank(s[k]))
    && (i < j ==> !Blank(s[i]) && !Blank(s[j - 1]))
  }

  ghost predicate SameLetters(s: string, t: string) {
    |s| == |t| && forall m :: 0 <= m < |s| ==> SameLetter(s[m], t[m])
  }

  /** Two spellings of one address: alike letter by letter, but for outer blanks. */
  ghost predicate SpelledAlike(s: string, t: string) {
    exists i: nat, j: nat, k: nat, l: nat ::
      IsCore(s, i, j) && IsCore(t, k, l) && SameLetters(s[i..j], t[k..l])
  }

  lemma BlankIsSpace(c: char)
    ensures IsSpace(c) <==> Blank(c)
    ensures IsSpace(Colon(c)) <==> Blank(c)
  {
  }

  lemma SameLetterIff(a: char, b: char)
    ensures SameLetter(a, b) <==> Lower(Colon(a)) == Lower(Colon(b))
  {
  }

  /** Normalising keeps the core, letter by letter. */
  lemma NormalizeAt(s: string) returns (i: nat, j: nat)
    ensures IsCore(s, i, j) && |Normalize(s)| == j - i
    ensures forall m :: 0 <= m < j - i ==> Normalize(s)[m] == Lower(Colon(s[i..j][m]))
  {
    ColonsAt(s);
    i, j := TrimCuts(Colons(s));
    ToLowerAt(Colons(s)[i..j]);
    forall k | 0 <= k < |s|
      ensures IsSpace(Colons(s)[k]) <==> Blank(s[k])
    {
      BlankIsSpace(s[k]);
    }
    forall m | 0 <= m < j - i
      ensures Normalize(s)[m] == Lower(Colon(s[i..j][m]))
    {
      assert Colons(s)[i..j][m] == Colons(s)[i + m];
    }
  }

  lemma CoreIsUnique(s: string, i: nat, j: nat, k: nat, l: nat)
    requires IsCore(s, i, j) && IsCore(s, k, l)
    ensures j - i == l - k && (i < j ==> i == k)
  {
  }

  /** Two spellings have one normal form exactly when they are alike up to case, '-' for ':' and outer blanks. */
  lemma SameNormalFormIff(s: string, t: string)
    ensures Normalize(s) == Normalize(t) <==> SpelledAlike(s, t)
  {
    var i, j := NormalizeAt(s);
    var k, l := NormalizeAt(t);
    LoweredAlikeIff(s[i..j], t[k..l], Normalize(s), Normalize(t));
    if SpelledAlike(s, t) {
      var i': nat, j': nat, k': nat, l': nat :|
        IsCore(s, i', j') && IsCore(t, k', l') && SameLetters(s[i'..j'], t[k'..l']);
      CoreIsUnique(s, i, j, i', j');
      CoreIsUnique(t, k, l, k', l');
      assert s[i..j] == s[i'..j'] && t[k..l] == t[k'..l'];
    }
  }

  lemma LoweredAlikeIff(s: string, t: string, s': string, t': string)
    requires |s| == |s'| && forall m :: 0 <= m < |s| ==> s'[m] == Lower(Colon(s[m]))
    requires |t| == |t'| && forall m :: 0 <= m < |t| ==> t'[m] == Lower(Colon(t[m]))
    ensures s' == t' <==> SameLetters(s, t)
  {
    if |s| == |t| {
      forall m | 0 <= m < |s|
        ensures SameLetter(s[m], t[m]) <==> s'[m] == t'[m]
      {
        SameLetterIff(s[m], t[m]);
      }
    }
  }

  /** A spelling of an address without capitals, dashes and outer blanks is normalised to that address. */
  lemma SpellingNormalises(spelling: string, mac: string)
    requires IsNormal(mac) && SpelledAlike(spelling, mac)
    ensures Normalize(spelling) == mac
  {
    SameNormalFormIff(spelling, mac);
    NormalStays(mac);
  }

  /** In capitals or not, with dashes for colons or not, between blanks or not. */
  lemma PaddedSpellingNormalises(before: string, spelling: string, after: string, mac: string)
    requires IsNormal(mac) && |spelling| == |mac|
    requires forall k :: 0 <= k < |before| ==> Blank(before[k])
    requires forall k :: 0 <= k < |after| ==> Blank(after[k])
    requires forall k :: 0 <= k < |mac| ==>
               || spelling[k] == mac[k] || (spelling[k] == '-' && mac[k] == ':')
               || ('a' <= mac[k] <= 'z' && spelling[k] as int == mac[k] as int - 32)
    ensures Normalize(before + spelling + after) == mac
  {
    var s, i, n := before + spelling + after, |before|, |mac|;
    assert s[i..i + n] == spelling && mac[0..n] == mac;
    if n > 0 {
      BlankIsSpace(mac[0]);
      BlankIsSpace(mac[n - 1]);
      assert s[i] == spelling[0] && s[i + n - 1] == spelling[n - 1];
    }
    assert IsCore(s, i, i + n) && IsCore(mac, 0, n) && SameLetters(s[i..i + n], mac[0..n]);
    SpellingNormalises(s, mac);
  }

  // Maps filled under normalised keys, by spelling.

  /** A client is found afterwards exactly when it was before or an entry spells its address. */
  lemma MergedIff<V>(prior: map<string, V>, entries: map<string, V>, result: map<string, V>, client: string)
    requires Overlay(prior, entries, result)
    ensures Normalize(client) in result <==>
            Normalize(client) in prior || exists key :: key in entries && SpelledAlike(key, client)
  {
    var n := Normalize(client);
    forall key
      ensures SpelledAlike(key, client) <==> Normalize(key) == n
    {
      SameNormalFormIff(key, client);
    }
    if n in result {
      assert Kept(prior, entries, result, n) || Written(entries, result, n);
    }
  }

  lemma FilledIff<V>(entries: map<string, V>, result: map<string, V>, client: string)
    requires Overlay(map[], entries, result)
    ensures Normalize(client) in result <==> exists key :: key in entries && SpelledAlike(key, client)
  {
    MergedIff(map[], entries, result, client);
  }

  /** All entries that spell this address agree with this one. */
  ghost predicate Agreed<V>(entries: map<string, V>, key: string) {
    key in entries && forall other :: other in entries && SpelledAlike(other, key) ==> entries[other] == entries[key]
  }

  /** The client then finds that value, under whatever spelling. */
  lemma FilledValue<V>(prior: map<string, V>, entries: map<string, V>, result: map<string, V>,
                       key: string, client: string)
    requires Overlay(prior, entries, result) && Agreed(entries, key) && SpelledAlike(key, client)
    ensures Normalize(client) in result && result[Normalize(client)] == entries[key]
  {
    var n := Normalize(client);
    SameNormalFormIff(key, client);
    assert Kept(prior, entries, result, n) || Written(entries, result, n);
    var other :| other in entries && Normalize(other) == n && entries[other] == result[n];
    SameNormalFormIff(other, key);
  }
}
