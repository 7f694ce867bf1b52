/** The random cache (libs/cache/rnd_cache.go): a map and a slice over the same entry objects, each of which records its
    position; removal moves the last entry into the gap. */
module RandCaches {
  import opened Blocks

  class RandEntry<K, V> {
    const key: K
    var value: V
    var index: int

    constructor (key: K, value: V, index: int)
      ensures this.key == key && this.value == value && this.index == index
    {
      this.key, this.value, this.index := key, value, index;
    }
  }

  /** Map and slice hold the same entries, each under its own key. */
  ghost predicate SameEntries<K, V>(m: map<K, RandEntry<K, V>>, s: seq<RandEntry<K, V>>) {
    && (forall e | e in s :: e.key in m && m[e.key] == e)
    && (forall k | k in m :: m[k] in s && m[k].key == k)
  }

  lemma EntryAdded<K, V>(m: map<K, RandEntry<K, V>>, s: seq<RandEntry<K, V>>, ent: RandEntry<K, V>)
    requires SameEntries(m, s) && ent.key !in m
    ensures SameEntries(m[ent.key := ent], s + [ent])
  {
    var s' := s + [ent];
    assert s'[|s|] == ent;
    forall k | k in m ensures m[k] in s' {
      var i :| 0 <= i < |s| && s[i] == m[k];
      assert s'[i] == m[k];
    }
  }

  /** The slice with the last entry moved to position i. */
  function Filled<T>(s: seq<T>, i: nat): seq<T>
    requires i < |s|
  {
    s[i := s[|s| - 1]][..|s| - 1]
  }

  lemma EntryRemoved<K, V>(m: map<K, RandEntry<K, V>>, s: seq<RandEntry<K, V>>, i: nat)
    requires SameEntries(m, s) && i < |s| && forall j, k | 0 <= j < k < |s| :: s[j] != s[k]
    ensures SameEntries(m - {s[i].key}, Filled(s, i))
  {
    var n := |s| - 1;
    var s' := Filled(s, i);
    forall e | e in s' ensures e in s && e != s[i] {
      var j :| 0 <= j < |s'| && s'[j] == e;
      assert e == if j == i then s[n] else s[j];
    }
    forall k | k in m && k != s[i].key ensures m[k] in s' {
      var j :| 0 <= j < |s| && s[j] == m[k];
      assert s'[if j == n then i else j] == m[k];
    }
  }

  class RandCache<K(==), V> {
    var m: map<K, RandEntry<K, V>>
    var s: seq<RandEntry<K, V>>
    const limit: int
    ghost var repr: set<RandEntry<K, V>>

    /** Entries of this cache, each at its recorded position, under its own key. */
    ghost predicate Agreeing()
      reads this, repr
    {
      && (forall e | e in s :: e in repr)
      && (forall i | 0 <= i < |s| :: s[i].index == i)
      && SameEntries(m, s)
    }

    ghost predicate Valid()
      reads this, repr
    {
      Agreeing() && 1 <= limit && |s| <= limit
    }

    ghost function Contents(): map<K, V>
      reads this`m, m.Values
    {
      map k | k in m :: m[k].value
    }

    constructor (limit: int)
      requires limit >= 1
      ensures Valid() && Contents() == map[] && this.limit == limit
    {
      m, s := map[], [];
      repr := {};
      this.limit := limit;
    }

    /** Sets the value of a key; an overflow drops the entry at a random position, `pick`. */
    method Set(key: K, value: V, pick: nat) returns (ghost dropped: Option<K>)
      requires Valid()
      modifies this`m, this`s, this`repr, repr
      ensures Valid() && forall e | e in repr :: e in old(repr) || fresh(e)
      ensures var full := old(Contents())[key := value];
              && (dropped.None? <==> key in old(m) || |old(s)| < limit)
              && (dropped.None? ==> Contents() == full)
              && (dropped.Some? ==> dropped.value in full && Contents() == full - {dropped.value})
      ensures dropped.Some? ==>
                var i := pick % (|old(s)| + 1);
                dropped.value == if i < |old(s)| then old(s)[i].key else key
    {
      hide SameEntries;
      if key in m {
        forall k | k in m ensures m[k] in s && m[k].key == k {
          EntryOf(m, s, k);
        }
        m[key].value := value;
        return None;
      }
      Append(key, value);
      if |s| > limit {
        dropped := RandDrop(pick);
        return;
      }
      return None;
    }

    method Append(key: K, value: V)
      requires Agreeing() && key !in m
      modifies this`m, this`s, this`repr
      ensures Agreeing() && |s| == |old(s)| + 1 && Contents() == old(Contents())[key := value]
      ensures s[..|old(s)|] == old(s) && s[|old(s)|].key == key
      ensures forall e | e in repr :: e in old(repr) || fresh(e)
    {
      hide SameEntries;
      var ent := new RandEntry(key, value, |s|);
      EntryAdded(m, s, ent);
      m := m[key := ent];
      s := s + [ent];
      repr := repr + {ent};
    }

    method Get(key: K) returns (r: Option<V>)
      requires Valid()
      ensures r == if key in Contents() then Some(Contents()[key]) else None
    {
      if key in m {
        return Some(m[key].value);
      }
      return None;
    }

    /** An entry at a random position. */
    method Pick(pick: nat) returns (r: Option<(K, V)>)
      requires Valid()
      ensures r.None? <==> Contents() == map[]
      ensures r.Some? ==> r.value.0 in Contents() && Contents()[r.value.0] == r.value.1
      ensures r.Some? ==> r.value.0 == s[pick % |s|].key
    {
      if |s| == 0 {
        return None;
      }
      var ent := s[pick % |s|];
      assert ent.key in m;
      return Some((ent.key, ent.value));
    }

    /** Removes a key by moving the last entry into its position. */
    method Remove(key: K) returns (removed: bool)
      requires Agreeing()
      modifies this`m, this`s, repr`index
      ensures Agreeing() && removed == (key in old(m))
      ensures Contents() == old(Contents()) - {key} && |s| == |old(s)| - (if removed then 1 else 0)
    {
      hide SameEntries;
      if key in m {
        var ent := m[key];
        EntryOf(m, s, key);
        EntryRemoved(m, s, ent.index);
        m := m - {key};
        var last := s[|s| - 1];
        var i := ent.index;
        s := s[i := last];
        last.index := i;
        s := s[..|s| - 1];
        assert s == Filled(old(s), i);
        return true;
      }
      return false;
    }

    method RandDrop(pick: nat) returns (ghost dropped: Option<K>)
      requires Agreeing()
      modifies this`m, this`s, repr`index
      ensures Agreeing() && (dropped.None? <==> |old(s)| == 0)
      ensures dropped.None? ==> m == old(m) && s == old(s)
      ensures dropped.Some? ==>
                && dropped.value == old(s)[pick % |old(s)|].key
                && dropped.value in old(m) && |s| == |old(s)| - 1
                && Contents() == old(Contents()) - {dropped.value}
    {
      if |s| == 0 {
        return None;
      }
      var ent := s[pick % |s|];
      assert ent in s;
      dropped := Some(ent.key);
      var _ := Remove(ent.key);
    }
  }

  /** The entry under a key is in the slice. */
  lemma EntryOf<K, V>(m: map<K, RandEntry<K, V>>, s: seq<RandEntry<K, V>>, key: K)
    requires SameEntries(m, s) && key in m
    ensures m[key] in s && m[key].key == key
  {
  }
}
