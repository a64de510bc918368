/**
 The key by which a reload decides whether the SMB user list has changed: the
 user entries as strings, sorted and joined. Strings are sequences of bytes.
 */
module SmbUsers {

  datatype User = User(name: string, password: string)

  const COLON := ':'
  const NUL := '\0'

  // Validation.

  predicate IsAlphanumeric(c: char) {
    'a' <= c <= 'z' || 'A' <= c <= 'Z' || '0' <= c <= '9'
  }

  /** `validateSimpleName`. */
  method ValidateSimpleName(name: string) returns (ok: bool)
    ensures ok <==> SimpleName(name)
  {
    if name == "" || |name| > 32 {
      return false;
    }
    for i := 0 to |name|
      invariant forall k :: 0 <= k < i ==> IsAlphanumeric(name[k]) || (k > 0 && name[k] in "._-")
    {
      ok := name[i] in "._-";
      if i == 0 && name[i] in "._-" {
        ok := false;
      }
      if !ok && !('a' <= name[i] <= 'z' || 'A' <= name[i] <= 'Z' || '0' <= name[i] <= '9') {
        return false;
      }
    }
    return true;
  }

  predicate SimpleName(name: string) {
    && 0 < |name| <= 32
    && IsAlphanumeric(name[0])
    && forall k :: 0 <= k < |name| ==> IsAlphanumeric(name[k]) || name[k] in "._-"
  }

  /** `validateUser`. */
  method ValidateUser(name: string, password: string) returns (ok: bool)
    ensures ok <==> ValidUser(User(name, password))
  {
    ok := ValidateSimpleName(name);
    if !ok || password == "" || |password| > 128 {
      return false;
    }
    for i := 0 to |password|
      invariant forall k :: 0 <= k < i ==> !IsControl(password[k])
    {
      var c := password[i];
      if c == '\n' || c == '\r' || (c < ' ' && c != '\t') || c == '\U{007F}' {
        return false;
      }
    }
    return true;
  }

  predicate IsControl(c: char) {
    (c < ' ' && c != '\t') || c == '\U{007F}'
  }

  predicate ValidUser(u: User) {
    SimpleName(u.name) && 0 < |u.password| <= 128 && forall k :: 0 <= k < |u.password| ==> !IsControl(u.password[k])
  }

  /** What the key needs of an entry. */
  ghost predicate Plain(u: User) {
    ':' !in u.name && '\0' !in u.name && '\0' !in u.password
  }

  lemma ValidIsPlain(u: User)
    requires ValidUser(u)
    ensures Plain(u)
  {
  }

  // Sorting.

  /** Order of byte strings. */
  predicate Le(a: string, b: string) {
    a == [] || (b != [] && (a[0] < b[0] || (a[0] == b[0] && Le(a[1..], b[1..]))))
  }

  lemma {:induction false} LeIsTotalOrder(a: string, b: string)
    ensures Le(a, b) || Le(b, a)
    ensures Le(a, b) && Le(b, a) ==> a == b
  {
    if a != [] && b != [] && a[0] == b[0] {
      LeIsTotalOrder(a[1..], b[1..]);
      if Le(a, b) && Le(b, a) {
        assert a == [a[0]] + a[1..] && b == [b[0]] + b[1..];
      }
    }
  }

  lemma {:induction false} LeTransitive(a: string, b: string, c: string)
    requires Le(a, b) && Le(b, c)
    ensures Le(a, c)
  {
    if a != [] && a[0] == b[0] == c[0] {
      LeTransitive(a[1..], b[1..], c[1..]);
    }
  }

  function Insert(x: string, s: seq<string>): seq<string> {
    if s == [] || Le(x, s[0]) then [x] + s else [s[0]] + Insert(x, s[1..])
  }

  /** `sort.Strings`. */
  function Sort(s: seq<string>): seq<string> {
    if s == [] then [] else Insert(s[0], Sort(s[1..]))
  }

  /** Byte by byte: a prefix comes first, else the first difference decides. */
  lemma {:induction false} LeIsByteOrder(a: string, b: string)
    ensures Le(a, b) <==>
            a <= b || exists k :: 0 <= k < |a| && k < |b| && a[..k] == b[..k] && a[k] < b[k]
    decreases |a|
  {
    if a != [] && b != [] && a[0] == b[0] {
      LeIsByteOrder(a[1..], b[1..]);
      assert a <= b <==> a[1..] <= b[1..];
      if k :| 0 <= k < |a| && k < |b| && a[..k] == b[..k] && a[k] < b[k] {
        assert a[1..][..k - 1] == a[..k][1..] && b[1..][..k - 1] == b[..k][1..];
        assert a[1..][k - 1] < b[1..][k - 1];
      }
      if k :| 0 <= k < |a[1..]| && k < |b[1..]| && a[1..][..k] == b[1..][..k] && a[1..][k] < b[1..][k] {
        assert a[..k + 1] == [a[0]] + a[1..][..k] && b[..k + 1] == [b[0]] + b[1..][..k];
        assert a[..k + 1] == b[..k + 1] && a[k + 1] < b[k + 1];
      }
    } else if a != [] && b != [] {
      assert a[..0] == b[..0];
      if k :| 0 <= k < |a| && k < |b| && a[..k] == b[..k] && a[k] < b[k] {
        assert k > 0 ==> a[..k][0] == b[..k][0];
      }
    }
  }

  ghost predicate Sorted(s: seq<string>) {
    forall i, j :: 0 <= i < j < |s| ==> Le(s[i], s[j])
  }

  lemma PrependSorted(x: string, s: seq<string>)
    requires Sorted(s) && forall y :: y in s ==> Le(x, y)
    ensures Sorted([x] + s)
  {
  }

  lemma HeadIsLeast(s: seq<string>, y: string)
    requires Sorted(s) && y in s
    ensures Le(s[0], y)
  {
    LeIsTotalOrder(y, y);
  }

  lemma {:induction false} InsertElements(x: string, s: seq<string>)
    ensures multiset(Insert(x, s)) == multiset(s) + multiset{x}
    ensures forall y :: y in Insert(x, s) <==> y == x || y in s
  {
    if s != [] && !Le(x, s[0]) {
      InsertElements(x, s[1..]);
      assert s == [s[0]] + s[1..];
    }
  }

  lemma {:induction false} InsertSorts(x: string, s: seq<string>)
    requires Sorted(s)
    ensures Sorted(Insert(x, s))
  {
    if s == [] || Le(x, s[0]) {
      forall y | y in s
        ensures Le(x, y)
      {
        HeadIsLeast(s, y);
        LeTransitive(x, s[0], y);
      }
      PrependSorted(x, s);
    } else {
      LeIsTotalOrder(x, s[0]);
      InsertSorts(x, s[1..]);
      InsertElements(x, s[1..]);
      forall y | y in Insert(x, s[1..])
        ensures Le(s[0], y)
      {
        if y != x {
          HeadIsLeast(s, y);
        }
      }
      PrependSorted(s[0], Insert(x, s[1..]));
    }
  }

  lemma {:induction false} SortSorts(s: seq<string>)
    ensures Sorted(Sort(s)) && multiset(Sort(s)) == multiset(s)
  {
    if s != [] {
      SortSorts(s[1..]);
      InsertSorts(s[0], Sort(s[1..]));
      InsertElements(s[0], Sort(s[1..]));
      assert s == [s[0]] + s[1..];
    }
  }

  lemma SameHead(a: seq<string>, b: seq<string>)
    requires Sorted(a) && Sorted(b) && multiset(a) == multiset(b) && a != []
    ensures b != [] && a[0] == b[0]
    ensures multiset(a[1..]) == multiset(b[1..])
  {
    assert a[0] in multiset(b);
    assert b[0] in multiset(a);
    HeadIsLeast(b, a[0]);
    HeadIsLeast(a, b[0]);
    LeIsTotalOrder(a[0], b[0]);
    WithoutHead(a);
    WithoutHead(b);
  }

  lemma WithoutHead(s: seq<string>)
    requires s != []
    ensures multiset(s[1..]) == multiset(s) - multiset{s[0]}
  {
    assert s == [s[0]] + s[1..];
  }

  lemma {:induction false} SortedIsUnique(a: seq<string>, b: seq<string>)
    requires Sorted(a) && Sorted(b) && multiset(a) == multiset(b)
    ensures a == b
  {
    if a == [] {
      assert |multiset(b)| == |b|;
    } else {
      SameHead(a, b);
      SortedIsUnique(a[1..], b[1..]);
      assert a == [a[0]] + a[1..] && b == [b[0]] + b[1..];
    }
  }

  /** Sorting forgets the order and nothing else. */
  lemma {:induction false} SortIsCanonical(a: seq<string>, b: seq<string>)
    ensures Sort(a) == Sort(b) <==> multiset(a) == multiset(b)
  {
    SortSorts(a);
    SortSorts(b);
    if multiset(a) == multiset(b) {
      SortedIsUnique(Sort(a), Sort(b));
    }
  }

  // Joining.

  function Join(parts: seq<string>): string {
    if parts == [] then ""
    else if |parts| == 1 then parts[0]
    else parts[0] + [NUL] + Join(parts[1..])
  }

  /** A string splits at its first separator in one way only. */
  lemma SplitIsUnique(a: string, x: string, b: string, y: string, sep: char)
    requires sep !in a && sep !in b && a + [sep] + x == b + [sep] + y
    ensures a == b && x == y
  {
    var s := a + [sep] + x;
    assert s[|a|] == sep && s[|b|] == sep;
    assert forall k :: 0 <= k < |a| ==> s[k] == a[k] && a[k] in a;
    assert forall k :: 0 <= k < |b| ==> s[k] == b[k] && b[k] in b;
    assert |a| == |b|;
    assert a == s[..|a|] && b == s[..|b|] && x == s[|a| + 1..] && y == s[|b| + 1..];
  }

  ghost predicate Joinable(parts: seq<string>) {
    forall k :: 0 <= k < |parts| ==> parts[k] != "" && NUL !in parts[k]
  }

  lemma JoinedHasSeparator(parts: seq<string>)
    requires |parts| > 1
    ensures NUL in Join(parts)
  {
  }

  lemma {:induction false} JoinInjective(a: seq<string>, b: seq<string>)
    requires Joinable(a) && Joinable(b) && Join(a) == Join(b)
    ensures a == b
  {
    assert |a| > 1 ==> NUL in Join(a) by { if |a| > 1 { JoinedHasSeparator(a); } }
    assert |b| > 1 ==> NUL in Join(b) by { if |b| > 1 { JoinedHasSeparator(b); } }
    if |a| > 1 && |b| > 1 {
      SplitIsUnique(a[0], Join(a[1..]), b[0], Join(b[1..]), NUL);
      JoinInjective(a[1..], b[1..]);
      assert a == [a[0]] + a[1..] && b == [b[0]] + b[1..];
    } else {
      assert |a| <= 1 && |b| <= 1;
    }
  }

  // The key.

  function Part(u: User): string {
    u.name + [COLON] + u.password
  }

  function Parts(users: seq<User>): (parts: seq<string>) {
    seq(|users|, i requires 0 <= i < |users| => Part(users[i]))
  }

  function Key(users: seq<User>): string {
    Join(Sort(Parts(users)))
  }

  /** `smbUsersKey`. */
  method SmbUsersKey(users: seq<User>) returns (key: string)
    ensures key == Key(users)
  {
    var parts := new string[|users|];
    for i := 0 to |users|
      invariant parts[..i] == Parts(users)[..i]
    {
      parts[i] := users[i].name + ":" + users[i].password;
      assert parts[i] == Part(users[i]);
    }
    assert parts[..] == Parts(users);
    key := Join(Sort(parts[..]));
  }

  lemma PartInjective(u: User, v: User)
    requires Plain(u) && Plain(v) && Part(u) == Part(v)
    ensures u == v
  {
    SplitIsUnique(u.name, u.password, v.name, v.password, COLON);
  }

  /** An entry is as often among the parts as it is among the users. */
  lemma {:induction false} PartsCount(users: seq<User>, u: User)
    requires Plain(u) && forall v :: v in users ==> Plain(v)
    ensures multiset(Parts(users))[Part(u)] == multiset(users)[u]
    decreases |users|
  {
    if users != [] {
      var v, rest := users[0], users[1..];
      PartsCount(rest, u);
      assert users == [v] + rest;
      assert Parts(users) == [Part(v)] + Parts(rest);
      if Part(v) == Part(u) {
        PartInjective(u, v);
      }
    }
  }

  /** Every part stems from a user. */
  lemma PartsFrom(users: seq<User>, p: string)
    requires p in Parts(users)
    ensures exists u :: u in users && Part(u) == p
  {
  }

  lemma PartsAreMultiset(a: seq<User>, b: seq<User>)
    requires forall u :: u in a || u in b ==> Plain(u)
    ensures multiset(Parts(a)) == multiset(Parts(b)) <==> multiset(a) == multiset(b)
  {
    forall u | u in a || u in b
      ensures multiset(Parts(a))[Part(u)] == multiset(a)[u] && multiset(Parts(b))[Part(u)] == multiset(b)[u]
    {
      PartsCount(a, u);
      PartsCount(b, u);
    }
    if multiset(a) == multiset(b) {
      forall p | p in Parts(a) || p in Parts(b)
        ensures multiset(Parts(a))[p] == multiset(Parts(b))[p]
      {
        if p in Parts(a) {
          PartsFrom(a, p);
        } else {
          PartsFrom(b, p);
        }
      }
      assert forall p :: p in multiset(Parts(a)) <==> p in Parts(a);
      assert forall p :: p in multiset(Parts(b)) <==> p in Parts(b);
    }
    if multiset(Parts(a)) == multiset(Parts(b)) {
      assert forall u :: multiset(a)[u] == multiset(b)[u];
    }
  }

  /** Lists of plain entries have the same key exactly when they hold the same users the same number of times. */
  lemma KeyIsMultiset(a: seq<User>, b: seq<User>)
    requires forall u :: u in a || u in b ==> Plain(u)
    ensures Key(a) == Key(b) <==> multiset(a) == multiset(b)
  {
    NulFreeIsJoinable(a);
    NulFreeIsJoinable(b);
    if Key(a) == Key(b) {
      JoinInjective(Sort(Parts(a)), Sort(Parts(b)));
    }
    SortIsCanonical(Parts(a), Parts(b));
    PartsAreMultiset(a, b);
  }

  /** In particular for lists the SMB server accepts. */
  lemma ValidKeysAreMultisets(a: seq<User>, b: seq<User>)
    requires forall u :: u in a || u in b ==> ValidUser(u)
    ensures Key(a) == Key(b) <==> multiset(a) == multiset(b)
  {
    forall u | u in a || u in b
      ensures Plain(u)
    {
      ValidIsPlain(u);
    }
    KeyIsMultiset(a, b);
  }

  /** Only the empty list has the empty key, valid entries or not. */
  lemma EmptyKey(users: seq<User>)
    ensures Key(users) == Key([]) <==> users == []
  {
    if users != [] {
      SortSorts(Parts(users));
      var sorted := Sort(Parts(users));
      assert Parts(users)[0] in multiset(sorted);
      assert sorted[0] in multiset(Parts(users));
      PartsFrom(users, sorted[0]);
    }
  }

  // When the key notices every change.

  ghost predicate NulFree(users: seq<User>) {
    forall u :: u in users ==> '\0' !in u.name && '\0' !in u.password
  }

  ghost predicate HasColon(u: User) {
    ':' in u.name || ':' in u.password
  }

  /** Whatever a list without NULs is changed to, short of NULs, the key changes with it. */
  ghost predicate ChangesAreNoticed(a: seq<User>) {
    forall b: seq<User> :: NulFree(b) && Key(a) == Key(b) ==> multiset(a) == multiset(b)
  }

  lemma NulFreeIsJoinable(users: seq<User>)
    requires NulFree(users)
    ensures Joinable(Sort(Parts(users)))
  {
    var sorted := Sort(Parts(users));
    SortSorts(Parts(users));
    forall k | 0 <= k < |sorted|
      ensures sorted[k] != "" && NUL !in sorted[k]
    {
      assert sorted[k] in multiset(sorted);
      PartsFrom(users, sorted[k]);
    }
  }

  /** An entry with a colon splits elsewhere, too. */
  lemma ColonSplitsTwice(u: User) returns (v: User)
    requires HasColon(u)
    ensures v != u && Part(v) == Part(u)
    ensures NulFree([u]) ==> NulFree([v])
  {
    if COLON in u.name {
      var k :| 0 <= k < |u.name| && u.name[k] == COLON;
      v := User(u.name[..k], u.name[k + 1..] + [COLON] + u.password);
      assert u.name == u.name[..k] + [COLON] + u.name[k + 1..];
    } else {
      var k :| 0 <= k < |u.password| && u.password[k] == COLON;
      v := User(u.name + [COLON] + u.password[..k], u.password[k + 1..]);
      assert u.password == u.password[..k] + [COLON] + u.password[k + 1..];
    }
    assert |v.name| != |u.name|;
    assert u in [u] && (NulFree([u]) ==> NUL !in u.name && NUL !in u.password);
  }

  /** Splitting one entry elsewhere changes the list and not the key. */
  lemma ColonHidesChange(a: seq<User>, i: nat) returns (b: seq<User>)
    requires i < |a| && HasColon(a[i])
    ensures Key(a) == Key(b) && multiset(a) != multiset(b)
    ensures NulFree(a) ==> NulFree(b)
  {
    var v := ColonSplitsTwice(a[i]);
    b := a[i := v];
    assert Parts(b) == Parts(a);
    assert multiset(b) == multiset(a)[a[i] := multiset(a)[a[i]] - 1] + multiset{v};
    assert multiset(b)[v] == multiset(a)[v] + 1;
    if NulFree(a) {
      assert a[i] in a && NulFree([a[i]]) && v in [v];
    }
  }

  lemma SamePartsSameColons(a: seq<User>, b: seq<User>, v: User)
    requires multiset(Parts(a)) == multiset(Parts(b)) && v in b
    requires forall u :: u in a ==> !HasColon(u)
    ensures COLON !in v.name
  {
    var k :| 0 <= k < |b| && b[k] == v;
    assert Parts(b)[k] in multiset(Parts(a));
    PartsFrom(a, Part(v));
    var u :| u in a && Part(u) == Part(v);
    OneColon(u, v);
  }

  lemma OneColon(u: User, v: User)
    requires !HasColon(u) && Part(u) == Part(v)
    ensures u == v
  {
    var s := Part(u);
    assert s[|u.name|] == COLON && s[|v.name|] == COLON;
    assert forall k :: 0 <= k < |u.name| ==> s[k] == u.name[k] && u.name[k] in u.name;
    assert forall k :: |u.name| < k < |s| ==> s[k] == u.password[k - |u.name| - 1] && s[k] in u.password;
    assert |u.name| == |v.name|;
    assert u.name == s[..|u.name|] && v.name == s[..|u.name|];
    assert u.password == s[|u.name| + 1..] && v.password == s[|u.name| + 1..];
  }

  /**
   Every change of a list to another one without NULs is noticed exactly when no
   user of it has a colon, be it in the name or in the password.
   */
  lemma ChangesAreNoticedIff(a: seq<User>)
    requires NulFree(a)
    ensures ChangesAreNoticed(a) <==> forall u :: u in a ==> !HasColon(u)
  {
    if forall u :: u in a ==> !HasColon(u) {
      forall b: seq<User> | NulFree(b) && Key(a) == Key(b)
        ensures multiset(a) == multiset(b)
      {
        NulFreeIsJoinable(a);
        NulFreeIsJoinable(b);
        JoinInjective(Sort(Parts(a)), Sort(Parts(b)));
        SortIsCanonical(Parts(a), Parts(b));
        forall v | v in b
          ensures COLON !in v.name
        {
          SamePartsSameColons(a, b, v);
        }
        PartsAreMultiset(a, b);
      }
    } else {
      var u :| u in a && HasColon(u);
      var i :| 0 <= i < |a| && a[i] == u;
      var b := ColonHidesChange(a, i);
      assert NulFree(b) && Key(a) == Key(b);
    }
  }

  // Without any restriction on the other list.

  function Colons(s: string): nat {
    if s == "" then 0 else (if s[0] == COLON then 1 else 0) + Colons(s[1..])
  }

  lemma {:induction false} ColonsConcat(s: string, t: string)
    ensures Colons(s + t) == Colons(s) + Colons(t)
  {
    if s == "" {
      assert s + t == t;
    } else {
      assert (s + t)[1..] == s[1..] + t;
      ColonsConcat(s[1..], t);
    }
  }

  lemma {:induction false} NoColons(s: string)
    ensures Colons(s) == 0 <==> COLON !in s
  {
    if s != "" {
      NoColons(s[1..]);
      assert s == [s[0]] + s[1..];
    }
  }

  lemma PartColons(u: User)
    ensures Colons(Part(u)) == Colons(u.name) + 1 + Colons(u.password)
    ensures Colons(Part(u)) == 1 <==> !HasColon(u)
  {
    ColonsConcat(u.name + [COLON], u.password);
    ColonsConcat(u.name, [COLON]);
    assert Colons([COLON]) == 1;
    NoColons(u.name);
    NoColons(u.password);
  }

  ghost predicate IsPart(s: string) {
    exists u :: Part(u) == s
  }

  ghost predicate AllParts(parts: seq<string>) {
    forall k :: 0 <= k < |parts| ==> IsPart(parts[k])
  }

  /** Each part brings a colon to the joined string. */
  lemma {:induction false} JoinColons(parts: seq<string>)
    requires AllParts(parts)
    ensures Colons(Join(parts)) >= |parts|
  {
    if parts != [] {
      assert IsPart(parts[0]);
      var u :| Part(u) == parts[0];
      PartColons(u);
      JoinColons(parts[1..]);
      if |parts| > 1 {
        ColonsConcat(parts[0] + [NUL], Join(parts[1..]));
        ColonsConcat(parts[0], [NUL]);
      }
    }
  }

  lemma KeyColons(users: seq<User>)
    ensures Colons(Key(users)) >= |users|
  {
    var sorted := Sort(Parts(users));
    SortSorts(Parts(users));
    assert |sorted| == |multiset(sorted)| == |Parts(users)|;
    forall k | 0 <= k < |sorted|
      ensures IsPart(sorted[k])
    {
      assert sorted[k] in multiset(sorted);
      PartsFrom(users, sorted[k]);
    }
    JoinColons(sorted);
  }

  lemma SingleKey(u: User)
    ensures Key([u]) == Part(u)
  {
    var parts := [Part(u)];
    assert Parts([u]) == parts;
    assert parts[1..] == [] && Sort(parts) == Insert(Part(u), []);
  }

  /** Any key with a colon is also that of a single user. */
  lemma OneUserHasKey(key: string) returns (v: User)
    requires COLON in key
    ensures Key([v]) == key
  {
    var k :| 0 <= k < |key| && key[k] == COLON;
    v := User(key[..k], key[k + 1..]);
    SingleKey(v);
    assert key == key[..k] + [COLON] + key[k + 1..];
  }

  /**
   Over all lists whatever, NULs included, the key tells a list from every other
   one exactly when it is empty or holds one user without a colon.
   */
  lemma KeyIsUniqueIff(a: seq<User>)
    ensures (forall b: seq<User> :: Key(a) == Key(b) ==> multiset(a) == multiset(b))
            <==> a == [] || (|a| == 1 && !HasColon(a[0]))
  {
    if a == [] {
      forall b: seq<User> | Key(a) == Key(b)
        ensures multiset(a) == multiset(b)
      {
        EmptyKey(b);
      }
    } else if |a| == 1 && !HasColon(a[0]) {
      forall b: seq<User> | Key(a) == Key(b)
        ensures multiset(a) == multiset(b)
      {
        OnlyUser(a, b);
      }
    } else if |a| == 1 {
      var b := ColonHidesChange(a, 0);
    } else {
      KeyColons(a);
      NoColons(Key(a));
      var v := OneUserHasKey(Key(a));
      assert |multiset([v])| == 1 && |multiset(a)| == |a|;
    }
  }

  lemma OnlyUser(a: seq<User>, b: seq<User>)
    requires |a| == 1 && !HasColon(a[0]) && Key(a) == Key(b)
    ensures a == b
  {
    SingleKey(a[0]);
    PartColons(a[0]);
    assert a == [a[0]];
    KeyColons(b);
    EmptyKey(a);
    EmptyKey(b);
    assert b == [b[0]];
    SingleKey(b[0]);
    OneColon(a[0], b[0]);
  }
}
