/** The priority cache (libs/cache/prio_cache.go): a map and a binary heap over the same entry objects, each of which
    records its heap position.  The heap is worked by Push, Pop, Remove and Fix of Go's container/heap. */
module PrioCaches {
  import opened Blocks

  // ---------------------------------------------------------------- heap order on a row of priorities

  function Parent(c: nat): (p: nat)
    requires c > 0
    ensures p < c
  {
    (c - 1) / 2
  }

  predicate Edge(p: seq<real>, c: nat)
    requires 0 < c < |p|
  {
    p[Parent(c)] <= p[c]
  }

  /** The first n priorities are in heap order. */
  ghost predicate Heap(p: seq<real>, n: nat)
    requires n <= |p|
  {
    forall c | 0 < c < n :: Edge(p, c)
  }

  /** Heap order but for the edge into j, which the children of j already respect. */
  ghost predicate UpHeap(p: seq<real>, j: nat, n: nat)
    requires j < n <= |p|
  {
    && (forall c | 0 < c < n && c != j :: Edge(p, c))
    && (forall c | 0 < c < n && Parent(c) == j && j > 0 :: p[Parent(j)] <= p[c])
  }

  /** Heap order but for the edges out of i, and the edge into i while i is still at the top of its way down. */
  ghost predicate DownHeap(p: seq<real>, i: nat, n: nat, top: nat)
    requires i < |p| && n <= |p|
  {
    && (forall c | 0 < c < n && Parent(c) != i && !(c == i && i == top) :: Edge(p, c))
    && (forall c | 0 < c < n && Parent(c) == i && i > 0 :: p[Parent(i)] <= p[c])
  }

  function Swapped<T>(s: seq<T>, i: nat, j: nat): (r: seq<T>)
    requires i < |s| && j < |s|
    ensures |r| == |s|
  {
    s[i := s[j]][j := s[i]]
  }

  lemma UpStep(p: seq<real>, j: nat, n: nat)
    requires 0 < j < n <= |p| && UpHeap(p, j, n) && p[j] < p[Parent(j)]
    ensures UpHeap(Swapped(p, Parent(j), j), Parent(j), n)
  {
    var i, q := Parent(j), Swapped(p, Parent(j), j);
    forall c | 0 < c < n && c != i ensures Edge(q, c) {
      assert c != j ==> Edge(p, c);
    }
    forall c | 0 < c < n && Parent(c) == i && i > 0 ensures q[Parent(i)] <= q[c] {
      assert Edge(p, i);
      assert c != j ==> Edge(p, c);
    }
  }

  lemma UpDone(p: seq<real>, j: nat, n: nat)
    requires j < n <= |p| && UpHeap(p, j, n) && (j > 0 ==> !(p[j] < p[Parent(j)]))
    ensures Heap(p, n)
  {
  }

  /** j is the child of i of least priority. */
  predicate LeastChild(p: seq<real>, i: nat, j: nat, n: nat)
    requires n <= |p|
  {
    j < n &&
    if j == 2 * i + 1 then j + 1 < n ==> p[j] <= p[j + 1] else j == 2 * i + 2 && p[j] <= p[j - 1]
  }

  lemma DownStep(p: seq<real>, i: nat, j: nat, n: nat, top: nat)
    requires i < |p| && n <= |p| && DownHeap(p, i, n, top) && LeastChild(p, i, j, n) && p[j] < p[i]
    ensures DownHeap(Swapped(p, i, j), j, n, top)
  {
    var q := Swapped(p, i, j);
    forall c | 0 < c < n && Parent(c) != j && !(c == j && j == top) ensures Edge(q, c) {
      assert Parent(c) != i && !(c == i && i == top) ==> Edge(p, c);
    }
    forall c | 0 < c < n && Parent(c) == j ensures q[Parent(j)] <= q[c] {
      assert Edge(p, c);
    }
  }

  lemma DownDone(p: seq<real>, i: nat, n: nat, top: nat)
    requires top <= i < n <= |p| && DownHeap(p, i, n, top)
    requires 2 * i + 1 < n ==> p[i] <= p[2 * i + 1]
    requires 2 * i + 2 < n ==> p[i] <= p[2 * i + 2]
    ensures if i > top then Heap(p, n) else UpHeap(p, top, n)
  {
    hide Parent;
    forall c | 0 < c < n && Parent(c) == i ensures Edge(p, c) {
      Children(c);
    }
  }

  /** The way down ends where the least child is not smaller. */
  lemma DownStop(p: seq<real>, i: nat, j: nat, n: nat, top: nat)
    requires top <= i < n <= |p| && DownHeap(p, i, n, top) && LeastChild(p, i, j, n) && !(p[j] < p[i])
    ensures if i > top then Heap(p, n) else UpHeap(p, top, n)
  {
    hide DownHeap, UpHeap, Heap;
    DownDone(p, i, n, top);
  }

  lemma Children(c: nat)
    requires c > 0
    ensures c == 2 * Parent(c) + 1 || c == 2 * Parent(c) + 2
  {
  }

  /** The root of a heap is a minimum. */
  lemma {:induction false} RootIsMin(p: seq<real>, n: nat, i: nat)
    requires n <= |p| && Heap(p, n) && i < n
    ensures p[0] <= p[i]
  {
    if i > 0 {
      assert Edge(p, i);
      RootIsMin(p, n, Parent(i));
    }
  }

  /** Changing one priority leaves the order to be repaired from there. */
  lemma ChangedOne(p: seq<real>, i: nat, x: real, n: nat)
    requires i < n <= |p| && Heap(p, n)
    ensures DownHeap(p[i := x], i, n, i)
  {
    forall c | 0 < c < n && Parent(c) != i && c != i ensures Edge(p[i := x], c) {
      assert Edge(p, c);
    }
    forall c | 0 < c < n && Parent(c) == i && i > 0 ensures p[Parent(i)] <= p[c] {
      assert Edge(p, c) && Edge(p, i);
    }
  }

  lemma MovedLast(p: seq<real>, i: nat)
    requires i < |p| - 1 && Heap(p, |p|)
    ensures DownHeap(Swapped(p, i, |p| - 1), i, |p| - 1, i)
  {
    hide Parent;
    var n := |p| - 1;
    ChangedOne(p, i, p[n], n);
    var q := p[i := p[n]];
    var r := Swapped(p, i, n);
    forall c | 0 < c < n && Parent(c) != i && c != i ensures Edge(r, c) {
      assert Edge(q, c);
    }
    forall c | 0 < c < n && Parent(c) == i && i > 0 ensures r[Parent(i)] <= r[c] {
      assert q[Parent(i)] <= q[c];
    }
  }

  lemma Pushed(p: seq<real>, x: real)
    requires Heap(p, |p|)
    ensures UpHeap(p + [x], |p|, |p| + 1)
  {
    forall c | 0 < c < |p| ensures Edge(p + [x], c) {
      assert Edge(p, c);
    }
  }

  lemma HeapPrefix(p: seq<real>, n: nat)
    requires n <= |p| && Heap(p, n)
    ensures Heap(p[..n], n)
  {
    forall c | 0 < c < n ensures Edge(p[..n], c) {
      assert Edge(p, c);
    }
  }

  // ---------------------------------------------------------------- entries and the cache

  class PrioEntry<K, V> {
    const key: K
    var value: V
    var priority: real
    var index: int

    constructor (key: K, value: V, priority: real)
      ensures this.key == key && this.value == value && this.priority == priority
    {
      this.key, this.value, this.priority := key, value, priority;
      index := 0;
    }
  }

  ghost predicate SameMembers<K, V>(a: seq<PrioEntry<K, V>>, b: seq<PrioEntry<K, V>>) {
    |a| == |b| && (forall e | e in a :: e in b) && (forall e | e in b :: e in a)
  }

  lemma SameReflexive<K, V>(a: seq<PrioEntry<K, V>>)
    ensures SameMembers(a, a)
  {
  }

  lemma SameTransitive<K, V>(a: seq<PrioEntry<K, V>>, b: seq<PrioEntry<K, V>>, c: seq<PrioEntry<K, V>>)
    requires SameMembers(a, b) && SameMembers(b, c)
    ensures SameMembers(a, c)
  {
  }

  /** Every entry of the heap records its own position; so no entry occurs twice. */
  ghost predicate Placed<K, V>(s: seq<PrioEntry<K, V>>)
    reads s
  {
    forall i | 0 <= i < |s| :: s[i].index == i
  }

  ghost function Prios<K, V>(s: seq<PrioEntry<K, V>>): (p: seq<real>)
    reads s
    ensures |p| == |s| && forall i | 0 <= i < |s| :: p[i] == s[i].priority
  {
    seq(|s|, i requires 0 <= i < |s| reads s => s[i].priority)
  }

  ghost predicate WithEntry<K, V>(s: seq<PrioEntry<K, V>>, s': seq<PrioEntry<K, V>>, ent: PrioEntry<K, V>) {
    && |s'| == |s| + 1
    && (forall e | e in s' :: e in s || e == ent) && (forall e | e in s :: e in s') && ent in s'
  }

  ghost predicate WithoutEntry<K, V>(s: seq<PrioEntry<K, V>>, s': seq<PrioEntry<K, V>>, ent: PrioEntry<K, V>) {
    && |s'| == |s| - 1 && ent in s
    && (forall e | e in s' :: e in s && e != ent) && (forall e | e in s && e != ent :: e in s')
  }

  lemma LastDropped<K, V>(s: seq<PrioEntry<K, V>>, row: seq<PrioEntry<K, V>>, ent: PrioEntry<K, V>)
    requires SameMembers(s, row) && row != [] && row[|row| - 1] == ent && ent !in row[..|row| - 1]
    ensures |row| == |s| && WithoutEntry(s, row[..|row| - 1], ent)
  {
    assert row == row[..|row| - 1] + [ent];
  }

  lemma LastAdded<K, V>(s: seq<PrioEntry<K, V>>, s': seq<PrioEntry<K, V>>, ent: PrioEntry<K, V>)
    requires SameMembers(s + [ent], s')
    ensures WithEntry(s, s', ent)
  {
    assert ent in s + [ent];
    assert forall e | e in s :: e in s + [ent];
  }

  /** The map and the heap hold the same entries, each under its own key. */
  ghost predicate SameEntries<K, V>(m: map<K, PrioEntry<K, V>>, s: seq<PrioEntry<K, V>>) {
    && (forall e | e in s :: e.key in m && m[e.key] == e)
    && (forall k | k in m :: m[k] in s && m[k].key == k)
  }

  lemma EntryAdded<K, V>(m: map<K, PrioEntry<K, V>>, s: seq<PrioEntry<K, V>>, s': seq<PrioEntry<K, V>>,
                         ent: PrioEntry<K, V>)
    requires SameEntries(m, s) && ent.key !in m && WithEntry(s, s', ent)
    ensures SameEntries(m[ent.key := ent], s')
  {
  }

  lemma EntryRemoved<K, V>(m: map<K, PrioEntry<K, V>>, s: seq<PrioEntry<K, V>>, s': seq<PrioEntry<K, V>>,
                           ent: PrioEntry<K, V>)
    requires SameEntries(m, s) && WithoutEntry(s, s', ent)
    ensures SameEntries(m - {ent.key}, s')
  {
  }

  lemma EntriesMoved<K, V>(m: map<K, PrioEntry<K, V>>, s: seq<PrioEntry<K, V>>, s': seq<PrioEntry<K, V>>)
    requires SameEntries(m, s) && SameMembers(s, s')
    ensures SameEntries(m, s')
  {
  }

  /** The entry under a key is in the heap. */
  lemma EntryOf<K, V>(m: map<K, PrioEntry<K, V>>, s: seq<PrioEntry<K, V>>, key: K)
    requires SameEntries(m, s) && key in m
    ensures m[key] in s && m[key].key == key
  {
  }

  class PrioCache<K(==), V> {
    var m: map<K, PrioEntry<K, V>>
    var s: seq<PrioEntry<K, V>>
    const limit: int
    ghost var repr: set<PrioEntry<K, V>>

    /** The heap row: entries of this cache, each at its recorded position. */
    ghost predicate Row()
      reads this`s, this`repr, repr
    {
      (forall e | e in s :: e in repr) && Placed(s)
    }

    ghost predicate Mapped()
      reads this`m, this`s
    {
      SameEntries(m, s)
    }

    ghost predicate Valid()
      reads this, repr
    {
      && Row() && Mapped() && Heap(Prios(s), |s|)
      && 1 <= limit && |s| <= limit
    }

    /** What the cache holds. */
    ghost function Contents(): map<K, (V, real)>
      reads this`m, m.Values
    {
      map k | k in m :: (m[k].value, m[k].priority)
    }

    constructor (limit: int)
      requires limit >= 1
      ensures Valid() && Contents() == map[] && this.limit == limit
    {
      m, s := map[], [];
      repr := {};
      this.limit := limit;
    }

    // -------------------------------------------------------------- the heap interface

    method Swap(i: nat, j: nat)
      requires i < |s| && j < |s| && Row()
      modifies this`s, repr`index
      ensures Row()
      ensures s == Swapped(old(s), i, j) && SameMembers(old(s), s)
      ensures Prios(s) == Swapped(old(Prios(s)), i, j)
    {
      s[i].index := j;
      s[j].index := i;
      s := s[i := s[j]][j := s[i]];
      SwapMembers(old(s), i, j);
    }

    /** Pop of the heap interface: drops the last entry. */
    method PopLast() returns (ent: PrioEntry<K, V>)
      requires |s| > 0 && Row() && Heap(Prios(s), |s| - 1)
      modifies this`s, repr`index
      ensures ent == old(s[|s| - 1]) && s == old(s[..|s| - 1])
      ensures Row() && Heap(Prios(s), |s|) && ent !in s
    {
      hide Heap;
      var n := |s|;
      ent := s[n - 1];
      HeapPrefix(Prios(s), n - 1);
      ghost var p := Prios(s)[..n - 1];
      ent.index := -1;
      s := s[..n - 1];
      assert Prios(s) == p;
    }

    // -------------------------------------------------------------- container/heap

    method Up(start: nat, ghost n: nat)
      requires start < n <= |s| && Row() && UpHeap(Prios(s), start, n)
      modifies this`s, repr`index
      ensures Row() && SameMembers(old(s), s) && Heap(Prios(s), n)
      ensures |s| == |old(s)| && s[n..] == old(s[n..])
    {
      hide UpHeap, Heap, SameMembers;
      var j: nat := start;
      SameReflexive(s);
      while true
        invariant j < n <= |s| && |s| == |old(s)| && Row() && UpHeap(Prios(s), j, n)
        invariant SameMembers(old(s), s) && s[n..] == old(s[n..])
        decreases j
      {
        if j == 0 {
          break;
        }
        var i: nat := (j - 1) / 2;
        if !(s[j].priority < s[i].priority) {
          break;
        }
        UpStep(Prios(s), j, n);
        ghost var before := s;
        Swap(i, j);
        SameTransitive(old(s), before, s);
        j := i;
      }
      UpDone(Prios(s), j, n);
    }

    /** The child of least priority. */
    method SmallerChild(i: nat, n: nat) returns (j: nat)
      requires 2 * i + 1 < n <= |s|
      ensures LeastChild(Prios(s), i, j, n) && i < j < n
    {
      var j1 := 2 * i + 1;
      j := j1;
      var j2 := j1 + 1;
      if j2 < n && s[j2].priority < s[j1].priority {
        j := j2;
      }
    }

    method Down(start: nat, n: nat) returns (moved: bool)
      requires start < n <= |s| && Row() && DownHeap(Prios(s), start, n, start)
      modifies this`s, repr`index
      ensures Row() && SameMembers(old(s), s) && |s| == |old(s)| && s[n..] == old(s[n..])
      ensures moved ==> Heap(Prios(s), n)
      ensures !moved ==> s == old(s) && UpHeap(Prios(s), start, n)
    {
      hide DownHeap, UpHeap, Heap, SameMembers, LeastChild;
      var i: nat := start;
      SameReflexive(s);
      while true
        invariant start <= i < n <= |s| && |s| == |old(s)| && Row() && DownHeap(Prios(s), i, n, start)
        invariant SameMembers(old(s), s) && s[n..] == old(s[n..])
        invariant i == start ==> s == old(s)
        decreases n - i
      {
        if 2 * i + 1 >= n {
          DownDone(Prios(s), i, n, start);
          break;
        }
        var j := SmallerChild(i, n);
        if !(s[j].priority < s[i].priority) {
          DownStop(Prios(s), i, j, n, start);
          break;
        }
        DownStep(Prios(s), i, j, n, start);
        ghost var before := s;
        Swap(i, j);
        SameTransitive(old(s), before, s);
        i := j;
      }
      moved := i > start;
    }

    method Fix(i: nat)
      requires i < |s| && Row() && DownHeap(Prios(s), i, |s|, i)
      modifies this`s, repr`index
      ensures Row() && SameMembers(old(s), s) && |s| == |old(s)| && Heap(Prios(s), |s|)
    {
      hide DownHeap, UpHeap, Heap, SameMembers;
      var moved := Down(i, |s|);
      if !moved {
        Up(i, |s|);
      }
    }

    /** Takes entry i out of the heap. */
    method RemoveAt(i: nat) returns (ent: PrioEntry<K, V>)
      requires i < |s| && Row() && Heap(Prios(s), |s|)
      modifies this`s, repr`index
      ensures ent == old(s[i]) && Row() && Heap(Prios(s), |s|)
      ensures |s| == |old(s)| - 1 && WithoutEntry(old(s), s, ent)
    {
      hide Heap, SameMembers, WithoutEntry, Placed;
      MoveToEnd(i);
      ghost var row := s;
      ent := PopLast();
      LastDropped(old(s), row, ent);
    }

    /** Moves entry i to the end and puts the rest in heap order. */
    method MoveToEnd(i: nat)
      requires i < |s| && Row() && Heap(Prios(s), |s|)
      modifies this`s, repr`index
      ensures Row() && SameMembers(old(s), s) && |s| == |old(s)|
      ensures s[|s| - 1] == old(s[i]) && Heap(Prios(s), |s| - 1)
    {
      hide DownHeap, UpHeap, SameMembers;
      var n := |s| - 1;
      SameReflexive(s);
      if n != i {
        hide Heap;
        MovedLast(Prios(s), i);
        Swap(i, n);
        ghost var swapped := s;
        var moved := Down(i, n);
        if !moved {
          Up(i, n);
        }
        assert s[n] == s[n..][0] == swapped[n..][0];
        SameTransitive(old(s), swapped, s);
      }
    }

    method Push(ent: PrioEntry<K, V>)
      requires ent !in s && Row() && Heap(Prios(s), |s|)
      modifies this`s, this`repr, repr`index, ent`index
      ensures Row() && Heap(Prios(s), |s|) && repr == old(repr) + {ent}
      ensures |s| == |old(s)| + 1 && WithEntry(old(s), s, ent)
    {
      hide Heap, UpHeap, SameMembers, WithEntry;
      Pushed(Prios(s), ent.priority);
      ghost var p := Prios(s) + [ent.priority];
      ent.index := |s|;
      s := s + [ent];
      repr := repr + {ent};
      assert Prios(s) == p;
      Up(|s| - 1, |s|);
      LastAdded(old(s), s, ent);
    }

    // -------------------------------------------------------------- the cache operations

    /** Evicts an entry of least priority, if there is any. */
    method PopLowest() returns (ghost evicted: Option<K>)
      requires Row() && Mapped() && Heap(Prios(s), |s|)
      modifies this`m, this`s, repr`index
      ensures Row() && Mapped() && Heap(Prios(s), |s|)
      ensures evicted.None? <==> |old(s)| == 0
      ensures evicted.None? ==> m == old(m) && s == old(s)
      ensures evicted.Some? ==>
                && |s| == |old(s)| - 1
                && evicted.value in old(m) && m == old(m) - {evicted.value}
                && forall k | k in old(m) :: old(m)[evicted.value].priority <= old(m)[k].priority
    {
      if |s| == 0 {
        return None;
      }
      forall k | k in m ensures s[0].priority <= m[k].priority {
        RootIsMin(Prios(s), |s|, m[k].index);
      }
      var ent := RemoveAt(0);
      EntryRemoved(m, old(s), s, ent);
      evicted := Some(ent.key);
      m := m - {ent.key};
    }

    /** Changes an entry in place and repairs the heap. */
    method SetExisting(key: K, value: V, priority: real)
      requires Valid() && key in m
      modifies this`s, repr
      ensures Valid() && Contents() == old(Contents())[key := (value, priority)]
    {
      hide Heap, DownHeap, SameEntries, SameMembers;
      var ent := m[key];
      EntryOf(m, s, key);
      ChangedOne(Prios(s), ent.index, priority, |s|);
      ghost var p := Prios(s)[ent.index := priority];
      ent.value := value;
      ent.priority := priority;
      assert Prios(s) == p;
      Fix(ent.index);
      EntriesMoved(m, old(s), s);
    }

    /** Adds an entry under a new key; the cache may then exceed its limit by one. */
    method Insert(key: K, value: V, priority: real)
      requires Valid() && key !in m
      modifies this`m, this`s, this`repr, repr
      ensures Row() && Mapped() && Heap(Prios(s), |s|) && |s| == |old(s)| + 1
      ensures Contents() == old(Contents())[key := (value, priority)]
      ensures forall e | e in repr :: e in old(repr) || fresh(e)
    {
      hide Heap, SameEntries, WithEntry, WithoutEntry;
      var ent := new PrioEntry(key, value, priority);
      Push(ent);
      EntryAdded(m, old(s), s, ent);
      m := m[key := ent];
    }

    /** Sets value and priority of a key.  An overflow evicts an entry of least priority among all, the new one
        included. */
    method Set(key: K, value: V, priority: real) returns (ghost evicted: Option<K>)
      requires Valid()
      modifies this`m, this`s, this`repr, repr
      ensures Valid() && forall e | e in repr :: e in old(repr) || fresh(e)
      ensures var full := old(Contents())[key := (value, priority)];
              && (evicted.None? <==> key in old(m) || |old(s)| < limit)
              && (evicted.None? ==> Contents() == full)
              && (evicted.Some? ==>
                  && evicted.value in full
                  && Contents() == full - {evicted.value}
                  && forall k | k in full :: full[evicted.value].1 <= full[k].1)
    {
      hide Heap, Placed, SameEntries;
      if key in m {
        SetExisting(key, value, priority);
        return None;
      }
      Insert(key, value, priority);
      if |s| > limit {
        ghost var full := Contents();
        evicted := PopLowest();
        assert forall x | x in full :: full[evicted.value].1 <= full[x].1;
        return;
      }
      return None;
    }

    method Get(key: K) returns (r: Option<(V, real)>)
      requires Valid()
      ensures r == if key in Contents() then Some(Contents()[key]) else None
    {
      if key in m {
        return Some((m[key].value, m[key].priority));
      }
      return None;
    }

    method Remove(key: K) returns (r: Option<(V, real)>)
      requires Valid()
      modifies this`m, this`s, repr`index
      ensures Valid() && Contents() == old(Contents()) - {key}
      ensures r == if key in old(m) then Some(old(Contents())[key]) else None
    {
      hide Heap, SameEntries, WithEntry, WithoutEntry;
      if key in m {
        var ent := m[key];
        EntryOf(m, s, key);
        m := m - {key};
        var _ := RemoveAt(ent.index);
        EntryRemoved(old(m), old(s), s, ent);
        return Some((ent.value, ent.priority));
      }
      return None;
    }

    /** The map has as many keys as the heap has entries. */
    lemma SameSize()
      requires Row() && Mapped()
      ensures |m| == |s|
    {
      KeyCount(s, m.Keys);
    }
  }

  lemma SwapMembers<K, V>(s: seq<PrioEntry<K, V>>, i: nat, j: nat)
    requires i < |s| && j < |s|
    ensures SameMembers(s, Swapped(s, i, j))
  {
    var r := Swapped(s, i, j);
    assert r[i] == s[j] && r[j] == s[i];
    forall x | x in s ensures x in r {
      var k :| 0 <= k < |s| && s[k] == x;
      assert k != i && k != j ==> r[k] == x;
    }
  }

  lemma {:induction false} KeyCount<K, V>(s: seq<PrioEntry<K, V>>, keys: set<K>)
    requires forall i, j | 0 <= i < j < |s| :: s[i].key != s[j].key
    requires forall k :: k in keys <==> exists i | 0 <= i < |s| :: s[i].key == k
    ensures |keys| == |s|
  {
    if s != [] {
      var n := |s| - 1;
      KeyCount(s[..n], keys - {s[n].key});
    }
  }
}
