/**
 * A JavaScript `Map` as the server uses it: entries kept in insertion order,
 * `set` on an existing key overwrites the value in place, `set` on a new key
 * appends, `delete` drops the entry and keeps the order of the rest.
 */
module OrderedMaps {
  import opened Basics

  type OrderedMap<V> = seq<(string, V)>

  /** Well-formed: no key occurs twice. */
  predicate UniqueKeys<V>(m: OrderedMap<V>) {
    forall i, j :: 0 <= i < j < |m| ==> m[i].0 != m[j].0
  }

  /** `m.has(k)`. */
  predicate HasKey<V>(m: OrderedMap<V>, k: string) {
    exists i :: 0 <= i < |m| && m[i].0 == k
  }

  /** The position of the first entry with key `k`, if any. */
  function IndexOf<V>(m: OrderedMap<V>, k: string): (r: Option<nat>)
    ensures r.Some? <==> HasKey(m, k)
    ensures r.Some? ==> r.value < |m| && m[r.value].0 == k
    ensures r.Some? ==> forall j :: 0 <= j < r.value ==> m[j].0 != k
  {
    if |m| == 0 then None
    else if m[0].0 == k then Some(0)
    else
      match IndexOf(m[1..], k)
      case None => None
      case Some(i) => Some(i + 1)
  }

  /** `m.get(k)`. */
  function Get<V>(m: OrderedMap<V>, k: string): (r: Option<V>)
    ensures r.Some? <==> HasKey(m, k)
    ensures r.Some? ==> (k, r.value) in m
  {
    match IndexOf(m, k)
    case None => None
    case Some(i) => Some(m[i].1)
  }

  /** `m.set(k, v)`. */
  function Put<V>(m: OrderedMap<V>, k: string, v: V): (r: OrderedMap<V>)
    ensures Get(r, k) == Some(v)
    ensures forall k' :: k' != k ==> Get(r, k') == Get(m, k')
    ensures |r| == if HasKey(m, k) then |m| else |m| + 1
    ensures forall i :: 0 <= i < |m| ==> r[i].0 == m[i].0
    ensures !HasKey(m, k) ==> r == m + [(k, v)]
    ensures forall e :: e in r ==> e == (k, v) || e in m
    ensures UniqueKeys(m) ==> UniqueKeys(r)
  {
    match IndexOf(m, k)
    case None =>
      var r := m + [(k, v)];
      forall k' ensures Get(r, k') == if k' == k then Some(v) else Get(m, k') {
        AppendIndex(m, k, v, k');
      }
      r
    case Some(i) =>
      var r := m[i := (k, v)];
      SameKeysSameIndex(m, r, k);
      forall k' | k' != k ensures Get(r, k') == Get(m, k') {
        SameKeysSameIndex(m, r, k');
      }
      r
  }

  /** `m.delete(k)`; deleting an absent key is a no-op. */
  function Remove<V>(m: OrderedMap<V>, k: string): (r: OrderedMap<V>)
    ensures !HasKey(m, k) ==> r == m
    ensures HasKey(m, k) ==> |r| == |m| - 1
    ensures HasKey(m, k) ==> exists i :: 0 <= i < |m| && m[i].0 == k && r == m[..i] + m[i + 1..]
    ensures forall e :: e in r ==> e in m
    ensures UniqueKeys(m) ==> UniqueKeys(r) && !HasKey(r, k)
    ensures UniqueKeys(m) ==> forall k' :: k' != k ==> Get(r, k') == Get(m, k')
  {
    match IndexOf(m, k)
    case None => m
    case Some(i) =>
      var r := m[..i] + m[i + 1..];
      DropAt(m, i);
      if UniqueKeys(m) then
        DropUnique(m, k, i);
        r
      else
        r
  }

  /** The entries left when position `i` is dropped. */
  lemma DropAt<V>(m: OrderedMap<V>, i: nat)
    requires i < |m|
    ensures var r := m[..i] + m[i + 1..];
      && |r| == |m| - 1
      && (forall j :: 0 <= j < |r| ==> r[j] == if j < i then m[j] else m[j + 1])
      && (forall e :: e in r ==> e in m)
  {
    var r := m[..i] + m[i + 1..];
    forall e | e in r ensures e in m {
      var j :| 0 <= j < |r| && r[j] == e;
    }
  }

  /** Dropping the only entry with key `k` from a map with unique keys. */
  lemma DropUnique<V>(m: OrderedMap<V>, k: string, i: nat)
    requires UniqueKeys(m) && i < |m| && m[i].0 == k
    ensures var r := m[..i] + m[i + 1..];
      && UniqueKeys(r) && !HasKey(r, k)
      && forall k' :: k' != k ==> Get(r, k') == Get(m, k')
  {
    var r := m[..i] + m[i + 1..];
    DropAt(m, i);
    assert UniqueKeys(r) by {
      forall a, b | 0 <= a < b < |r| ensures r[a].0 != r[b].0 {
        assert r[a] == (if a < i then m[a] else m[a + 1]);
        assert r[b] == (if b < i then m[b] else m[b + 1]);
      }
    }
    assert !HasKey(r, k) by {
      forall j | 0 <= j < |r| ensures r[j].0 != k {
        assert r[j] == (if j < i then m[j] else m[j + 1]);
      }
    }
    forall k' | k' != k ensures Get(r, k') == Get(m, k') {
      GetByEntry(m, k');
      GetByEntry(r, k');
      forall v ensures (k', v) in r <==> (k', v) in m {
        if (k', v) in m {
          var j :| 0 <= j < |m| && m[j] == (k', v);
          assert j != i;
          assert (if j < i then r[j] else r[j - 1]) == (k', v);
        }
      }
    }
  }

  /** Two maps with the same keys at the same positions find a key at the same position. */
  lemma SameKeysSameIndex<V>(m: OrderedMap<V>, r: OrderedMap<V>, k: string)
    requires |m| == |r|
    requires forall i :: 0 <= i < |m| ==> m[i].0 == r[i].0
    ensures IndexOf(m, k) == IndexOf(r, k)
  {
    var a, b := IndexOf(m, k), IndexOf(r, k);
    assert a.Some? <==> b.Some?;
    if a.Some? {
      assert !(a.value < b.value) && !(b.value < a.value);
    }
  }

  /** Appending an entry does not move the keys already there. */
  lemma {:induction false} AppendIndex<V>(m: OrderedMap<V>, k: string, v: V, k': string)
    ensures IndexOf(m + [(k, v)], k') ==
      if IndexOf(m, k').Some? then IndexOf(m, k') else if k' == k then Some(|m|) else None
  {
    var r := m + [(k, v)];
    if |m| == 0 {
      assert r == [(k, v)];
      assert r[1..] == [];
    } else if m[0].0 != k' {
      assert r[0] == m[0];
      assert r[1..] == m[1..] + [(k, v)];
      AppendIndex(m[1..], k, v, k');
    } else {
      assert r[0] == m[0];
    }
  }

  /** The keys left after `delete` were all there before. */
  lemma RemoveKeys<V>(m: OrderedMap<V>, k: string, k': string)
    requires HasKey(Remove(m, k), k')
    ensures HasKey(m, k')
  {
    var r := Remove(m, k);
    var j :| 0 <= j < |r| && r[j].0 == k';
    assert r[j] in r;
    var e := r[j];
    assert e in m;
    var i :| 0 <= i < |m| && m[i] == e;
  }

  /** With unique keys, `Get` is read off the entries. */
  lemma GetByEntry<V>(m: OrderedMap<V>, k: string)
    requires UniqueKeys(m)
    ensures forall v :: Get(m, k) == Some(v) <==> (k, v) in m
  {
    forall v ensures Get(m, k) == Some(v) <==> (k, v) in m {
      if (k, v) in m {
        var j :| 0 <= j < |m| && m[j] == (k, v);
        var i := IndexOf(m, k).value;
        assert i == j;
      }
    }
  }

  /** Setting a key twice leaves what the second set leaves. */
  lemma {:induction false} PutTwice<V>(m: OrderedMap<V>, k: string, v1: V, v2: V)
    ensures Put(Put(m, k, v1), k, v2) == Put(m, k, v2)
  {
    var m1 := Put(m, k, v1);
    SameKeysSameIndex(m1[..|m|], m, k);
    match IndexOf(m, k)
    case None =>
      assert m1 == m + [(k, v1)];
      assert IndexOf(m1, k) == Some(|m|) by {
        assert m1[|m|].0 == k;
      }
    case Some(i) =>
      SameKeysSameIndex(m, m1, k);
  }

  /** Deleting a key just set is deleting it from the original map. */
  lemma RemoveAfterPut<V>(m: OrderedMap<V>, k: string, v: V)
    requires UniqueKeys(m) && HasKey(m, k)
    ensures Remove(Put(m, k, v), k) == Remove(m, k)
  {
    SameKeysSameIndex(m, Put(m, k, v), k);
  }
}
