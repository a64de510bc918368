/**
 Filling a map under normalised MAC keys, as every reservation, image and
 boot-file map is filled. The loops run over a Go map, so when two keys have the
 same normal form any of them may come last.
 */
module MacMaps {
  import opened Mac

  /** A possible outcome of writing every entry over `prior`, in some order. */
  ghost predicate Overlay<V>(prior: map<string, V>, entries: map<string, V>, result: map<string, V>) {
    && (forall k :: k in prior ==> k in result)
    && (forall mac :: mac in entries ==> Normalize(mac) in result)
    && (forall k :: k in result ==> Kept(prior, entries, result, k) || Written(entries, result, k))
  }

  ghost predicate Kept<V>(prior: map<string, V>, entries: map<string, V>, result: map<string, V>, k: string)
    requires k in result
  {
    k in prior && prior[k] == result[k] && forall mac :: mac in entries ==> Normalize(mac) != k
  }

  ghost predicate Written<V>(entries: map<string, V>, result: map<string, V>, k: string)
    requires k in result
  {
    exists mac :: mac in entries && Normalize(mac) == k && entries[mac] == result[k]
  }

  /** Keys with the same normal form agree. */
  ghost predicate Consistent<V>(entries: map<string, V>) {
    forall a, b :: a in entries && b in entries && Normalize(a) == Normalize(b) ==> entries[a] == entries[b]
  }

  lemma OverlayNothing<V>(prior: map<string, V>)
    ensures Overlay(prior, map[], prior)
  {
  }

  /** Writing one more entry. */
  lemma OverlayOneMore<V>(prior: map<string, V>, entries: map<string, V>, result: map<string, V>, mac: string, v: V)
    requires Overlay(prior, entries, result) && mac !in entries
    ensures Overlay(prior, entries[mac := v], result[Normalize(mac) := v])
  {
    var entries', result' := entries[mac := v], result[Normalize(mac) := v];
    assert mac in entries' && entries'[mac] == v;
    forall k | k in result' && !Kept(prior, entries', result', k)
      ensures Written(entries', result', k)
    {
      if k != Normalize(mac) && Written(entries, result, k) {
        var m :| m in entries && Normalize(m) == k && entries[m] == result[k];
        assert m in entries' && entries'[m] == entries[m];
      }
    }
  }

  /** One turn of a loop over the keys, `todo` being those still to come. */
  lemma NextKey<V>(
    prior: map<string, V>, entries: map<string, V>, todo: set<string>, mac: string, result: map<string, V>)
    requires Overlay(prior, entries - todo, result) && mac in todo
    ensures Overlay(prior, entries - (todo - {mac}),
                    if mac in entries then result[Normalize(mac) := entries[mac]] else result)
  {
  }

  lemma AllKeys<V>(prior: map<string, V>, entries: map<string, V>, result: map<string, V>)
    ensures Overlay(prior, entries - {}, result) <==> Overlay(prior, entries, result)
    ensures forall todo :: entries.Keys <= todo ==> entries - todo == map[]
  {
  }

  lemma OneOutcome<V>(prior: map<string, V>, entries: map<string, V>, a: map<string, V>, b: map<string, V>)
    requires Consistent(entries) && Overlay(prior, entries, a) && Overlay(prior, entries, b)
    ensures a == b
  {
    forall k | k in a || k in b
      ensures k in a && k in b && a[k] == b[k]
    {
      SameAt(prior, entries, a, b, k);
      SameAt(prior, entries, b, a, k);
    }
  }

  lemma SameAt<V>(prior: map<string, V>, entries: map<string, V>, a: map<string, V>, b: map<string, V>, k: string)
    requires Consistent(entries) && Overlay(prior, entries, a) && Overlay(prior, entries, b)
    ensures k in a ==> k in b && a[k] == b[k]
  {
  }

  lemma OverlayIsNormal<V>(entries: map<string, V>, result: map<string, V>, k: string)
    requires Overlay(map[], entries, result) && k in result
    ensures Normalize(k) == k
  {
    assert Written(entries, result, k);
    var mac :| mac in entries && Normalize(mac) == k;
    NormalizeIdempotent(mac);
  }

  lemma KeysAreNormal<V>(entries: map<string, V>, result: map<string, V>)
    requires Overlay(map[], entries, result)
    ensures forall k :: k in result ==> IsNormal(k)
  {
    forall k | k in result
      ensures IsNormal(k)
    {
      OverlayIsNormal(entries, result, k);
      NormalizeIdempotent(k);
    }
  }

  /** Keys are normal afterwards, so filling a second map from the result copies it. */
  lemma SecondOverlayCopies<V>(entries: map<string, V>, once: map<string, V>, twice: map<string, V>)
    requires Overlay(map[], entries, once) && Overlay(map[], once, twice)
    ensures twice == once
  {
    forall k | k in once
      ensures Normalize(k) == k
    {
      OverlayIsNormal(entries, once, k);
    }
    CopyOfNormal(once, twice);
  }

  lemma CopyOfNormal<V>(entries: map<string, V>, copy: map<string, V>)
    requires Overlay(map[], entries, copy) && forall k :: k in entries ==> Normalize(k) == k
    ensures copy == entries
  {
  }

  /** Any entry can be the one that comes last. */
  lemma AnyEntryCanWin<V>(prior: map<string, V>, entries: map<string, V>, mac: string) returns (result: map<string, V>)
    requires mac in entries
    ensures Overlay(prior, entries, result) && result[Normalize(mac)] == entries[mac]
  {
    result := SomeOutcome(prior, entries - {mac});
    OverlayOneMore(prior, entries - {mac}, result, mac, entries[mac]);
    assert (entries - {mac})[mac := entries[mac]] == entries;
    result := result[Normalize(mac) := entries[mac]];
  }

  lemma {:induction false} SomeOutcome<V>(prior: map<string, V>, entries: map<string, V>)
      returns (result: map<string, V>)
    ensures Overlay(prior, entries, result)
    decreases |entries|
  {
    if entries == map[] {
      result := prior;
    } else {
      var mac :| mac in entries;
      result := SomeOutcome(prior, entries - {mac});
      OverlayOneMore(prior, entries - {mac}, result, mac, entries[mac]);
      assert (entries - {mac})[mac := entries[mac]] == entries;
      result := result[Normalize(mac) := entries[mac]];
    }
  }

  /** The outcome is independent of the order exactly when keys with the same normal form agree. */
  lemma OneOutcomeIffConsistent<V(!new)>(prior: map<string, V>, entries: map<string, V>)
    ensures Consistent(entries) <==>
            forall a, b :: Overlay(prior, entries, a) && Overlay(prior, entries, b) ==> a == b
  {
    if Consistent(entries) {
      forall a, b | Overlay(prior, entries, a) && Overlay(prior, entries, b)
        ensures a == b
      {
        OneOutcome(prior, entries, a, b);
      }
    } else {
      var x, y :| x in entries && y in entries && Normalize(x) == Normalize(y) && entries[x] != entries[y];
      var a := AnyEntryCanWin(prior, entries, x);
      var b := AnyEntryCanWin(prior, entries, y);
      assert Overlay(prior, entries, a) && Overlay(prior, entries, b) && a != b;
    }
  }

  /** Every entry is there already, under its normal key. */
  ghost predicate AlreadyIn<V>(prior: map<string, V>, entries: map<string, V>) {
    forall mac :: mac in entries ==> Normalize(mac) in prior && prior[Normalize(mac)] == entries[mac]
  }

  /** Writing the entries changes nothing, in whatever order, exactly when they are all there already. */
  lemma NothingChangesIff<V(!new)>(prior: map<string, V>, entries: map<string, V>)
    ensures (forall result :: Overlay(prior, entries, result) ==> result == prior) <==> AlreadyIn(prior, entries)
  {
    if AlreadyIn(prior, entries) {
      forall result | Overlay(prior, entries, result)
        ensures result == prior
      {
        AlreadyInStays(prior, entries, result);
      }
    } else {
      var mac :| mac in entries && !(Normalize(mac) in prior && prior[Normalize(mac)] == entries[mac]);
      var result := AnyEntryCanWin(prior, entries, mac);
      assert Overlay(prior, entries, result) && result != prior;
    }
  }

  lemma AlreadyInStays<V>(prior: map<string, V>, entries: map<string, V>, result: map<string, V>)
    requires AlreadyIn(prior, entries) && Overlay(prior, entries, result)
    ensures result == prior
  {
    forall k | k in result
      ensures k in prior && prior[k] == result[k]
    {
      assert Kept(prior, entries, result, k) || Written(entries, result, k);
    }
  }

  /** Filling a new map from the entries copies them exactly when their keys are normal. */
  lemma CopiesIffNormal<V>(entries: map<string, V>, copy: map<string, V>)
    requires Overlay(map[], entries, copy)
    ensures copy == entries <==> forall k :: k in entries ==> IsNormal(k)
  {
    if copy == entries {
      KeysAreNormal(entries, copy);
    }
    if forall k :: k in entries ==> IsNormal(k) {
      forall k | k in entries
        ensures Normalize(k) == k
      {
        NormalStays(k);
      }
      CopyOfNormal(entries, copy);
    }
  }

  /** Normalised keys never collide. */
  lemma NormalIsConsistent<V>(entries: map<string, V>)
    requires forall k :: k in entries ==> IsNormal(k)
    ensures Consistent(entries)
  {
    forall k | k in entries
      ensures Normalize(k) == k
    {
      NormalStays(k);
    }
  }
}
