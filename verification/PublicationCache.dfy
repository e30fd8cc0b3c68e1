/**
 The byte-budgeted publication cache of the gateway (`Cache` in `gateway_state.rs`): a map, a queue of
 keys in insertion order and a byte count, kept together. The rows of the cache, oldest first, say
 what it holds.
 */
module PublicationCache {
  import opened Bytes

  datatype Row<K, V> = Row(key: K, value: V, size: nat)

  function Sum<K, V>(rows: seq<Row<K, V>>): nat {
    if rows == [] then 0 else rows[0].size + Sum(rows[1..])
  }

  function Keys<K, V>(rows: seq<Row<K, V>>): (r: seq<K>)
    ensures |r| == |rows| && forall i :: 0 <= i < |rows| ==> r[i] == rows[i].key
  {
    if rows == [] then [] else [rows[0].key] + Keys(rows[1..])
  }

  ghost predicate Distinct<K, V>(rows: seq<Row<K, V>>) {
    forall i, j :: 0 <= i < j < |rows| ==> rows[i].key != rows[j].key
  }

  /** `forget`: the row of `key` is gone, the others stay in order. */
  function Without<K(==), V>(rows: seq<Row<K, V>>, key: K): (r: seq<Row<K, V>>)
    ensures forall i :: 0 <= i < |r| ==> r[i] in rows && r[i].key != key
    ensures forall row :: row in rows && row.key != key ==> row in r
  {
    if rows == [] then []
    else if rows[0].key == key then Without(rows[1..], key)
    else [rows[0]] + Without(rows[1..], key)
  }

  /** Oldest rows go until `size` more bytes fit, or none are left. */
  function Evict<K, V>(rows: seq<Row<K, V>>, size: nat, budget: nat): seq<Row<K, V>> {
    if rows == [] || Sum(rows) + size <= budget then rows else Evict(rows[1..], size, budget)
  }

  function PutRow<K(==), V>(rows: seq<Row<K, V>>, row: Row<K, V>, budget: nat): seq<Row<K, V>> {
    Evict(Without(rows, row.key), row.size, budget) + [row]
  }

  /** Evictions are the shortest prefix that makes room. */
  lemma {:induction false} EvictShortest<K, V>(rows: seq<Row<K, V>>, size: nat, budget: nat) returns (n: nat)
    ensures n <= |rows| && Evict(rows, size, budget) == rows[n..]
    ensures n == |rows| || Sum(rows[n..]) + size <= budget
    ensures forall k :: 0 <= k < n ==> Sum(rows[k..]) + size > budget
  {
    if rows == [] || Sum(rows) + size <= budget {
      n := 0;
      assert rows[0..] == rows;
    } else {
      var m := EvictShortest(rows[1..], size, budget);
      n := m + 1;
      assert rows[1..][m..] == rows[n..];
      forall k | 0 <= k < n
        ensures Sum(rows[k..]) + size > budget
      {
        if k == 0 {
          assert rows[0..] == rows;
        } else {
          assert rows[1..][k - 1..] == rows[k..];
        }
      }
    }
  }

  lemma {:induction false} SumAppend<K, V>(rows: seq<Row<K, V>>, row: Row<K, V>)
    ensures Sum(rows + [row]) == Sum(rows) + row.size
  {
    if rows == [] {
      assert rows + [row] == [row];
    } else {
      assert (rows + [row])[1..] == rows[1..] + [row];
      SumAppend(rows[1..], row);
    }
  }

  lemma {:induction false} DistinctWithout<K, V>(rows: seq<Row<K, V>>, key: K)
    requires Distinct(rows)
    ensures Distinct(Without(rows, key))
  {
    if rows != [] {
      assert Distinct(rows[1..]);
      DistinctWithout(rows[1..], key);
      if rows[0].key != key {
        var rest := Without(rows[1..], key);
        forall j | 0 <= j < |rest|
          ensures rest[j].key != rows[0].key
        {
          assert rest[j] in rows[1..];
        }
      }
    }
  }

  /** What one put keeps: distinct keys, and the budget if the row itself is within it. */
  lemma PutKeeps<K, V>(rows: seq<Row<K, V>>, row: Row<K, V>, budget: nat)
    requires Distinct(rows)
    ensures Distinct(PutRow(rows, row, budget))
    ensures row.size <= budget ==> Sum(PutRow(rows, row, budget)) <= budget
  {
    hide Without;
    var rest := Without(rows, row.key);
    DistinctWithout(rows, row.key);
    var n := EvictShortest(rest, row.size, budget);
    SumAppend(rest[n..], row);
    assert n == |rest| ==> Sum(rest[n..]) == 0;
  }

  // ----- the cache against a simple map, over every history

  datatype Event<K, V> = Store(row: Row<K, V>) | Drop(key: K)

  /** The cache after a history of puts and forgets. */
  function After<K(==), V>(history: seq<Event<K, V>>, budget: nat): seq<Row<K, V>> {
    if history == [] then []
    else
      var before := After(history[..|history| - 1], budget);
      match history[|history| - 1]
      case Store(row) => PutRow(before, row, budget)
      case Drop(key) => Without(before, key)
  }

  /** A map with no budget: the last row stored under `key`, unless it was forgotten since. */
  function Latest<K(==), V>(history: seq<Event<K, V>>, key: K): Option<Row<K, V>> {
    if history == [] then None
    else
      match history[|history| - 1]
      case Store(row) => if row.key == key then Some(row) else Latest(history[..|history| - 1], key)
      case Drop(k) => if k == key then None else Latest(history[..|history| - 1], key)
  }

  /** Rows that the budget did not allow to store are not stored. */
  ghost predicate Guarded<K, V>(history: seq<Event<K, V>>, budget: nat) {
    forall i :: 0 <= i < |history| && history[i].Store? ==> history[i].row.size <= budget
  }

  /** After every guarded history: one row per key, within budget, and each row is the latest one. */
  lemma {:induction false} CacheAgrees<K, V>(history: seq<Event<K, V>>, budget: nat)
    requires Guarded(history, budget)
    ensures Distinct(After(history, budget)) && Sum(After(history, budget)) <= budget
    ensures forall row :: row in After(history, budget) ==> Latest(history, row.key) == Some(row)
    decreases |history|
  {
    if history != [] {
      var init, last := history[..|history| - 1], history[|history| - 1];
      CacheAgrees(init, budget);
      var before := After(init, budget);
      match last
      case Store(row) => PutAgrees(before, row, budget);
      case Drop(key) =>
        DistinctWithout(before, key);
        SumWithout(before, key);
    }
  }

  lemma {:induction false} SumWithout<K, V>(rows: seq<Row<K, V>>, key: K)
    ensures Sum(Without(rows, key)) <= Sum(rows)
  {
    if rows != [] {
      SumWithout(rows[1..], key);
      if rows[0].key != key {
        assert ([rows[0]] + Without(rows[1..], key))[1..] == Without(rows[1..], key);
      }
    }
  }

  lemma PutAgrees<K, V>(rows: seq<Row<K, V>>, row: Row<K, V>, budget: nat)
    requires Distinct(rows) && row.size <= budget
    ensures Distinct(PutRow(rows, row, budget)) && Sum(PutRow(rows, row, budget)) <= budget
    ensures forall r :: r in PutRow(rows, row, budget) ==> r == row || (r in rows && r.key != row.key)
  {
    PutKeeps(rows, row, budget);
    var n := EvictShortest(Without(rows, row.key), row.size, budget);
  }

  /** All the bytes ever stored. */
  function Stored<K, V>(history: seq<Event<K, V>>): nat {
    if history == [] then 0
    else
      var init, last := history[..|history| - 1], history[|history| - 1];
      Stored(init) + if last.Store? then last.row.size else 0
  }

  /** While everything stored fits the budget at once, the cache forgets nothing by itself. */
  lemma {:induction false} NothingEvicted<K, V>(history: seq<Event<K, V>>, budget: nat, key: K)
    requires Stored(history) <= budget
    requires Latest(history, key).Some?
    ensures Latest(history, key).value in After(history, budget)
    decreases |history|
  {
    var init, last := history[..|history| - 1], history[|history| - 1];
    var before := After(init, budget);
    if last.Store? {
      var rest := Without(before, last.row.key);
      SumWithout(before, last.row.key);
      SumBounded(init, budget);
      assert Evict(rest, last.row.size, budget) == rest;
      if last.row.key != key {
        NothingEvicted(init, budget, key);
        LatestKey(init, key);
      }
    } else {
      NothingEvicted(init, budget, key);
      LatestKey(init, key);
    }
  }

  lemma {:induction false} SumBounded<K, V>(history: seq<Event<K, V>>, budget: nat)
    ensures Sum(After(history, budget)) <= Stored(history)
    decreases |history|
  {
    if history != [] {
      var init, last := history[..|history| - 1], history[|history| - 1];
      SumBounded(init, budget);
      var before := After(init, budget);
      match last
      case Store(row) =>
        var rest := Without(before, row.key);
        SumWithout(before, row.key);
        SumEvict(rest, row.size, budget);
        SumAppend(Evict(rest, row.size, budget), row);
      case Drop(key) => SumWithout(before, key);
    }
  }

  lemma {:induction false} SumEvict<K, V>(rows: seq<Row<K, V>>, size: nat, budget: nat)
    ensures Sum(Evict(rows, size, budget)) <= Sum(rows)
  {
    if rows != [] && Sum(rows) + size > budget {
      SumEvict(rows[1..], size, budget);
    }
  }

  lemma {:induction false} LatestKey<K, V>(history: seq<Event<K, V>>, key: K)
    requires Latest(history, key).Some?
    ensures Latest(history, key).value.key == key
    decreases |history|
  {
    var last := history[|history| - 1];
    if !(last.Store? && last.row.key == key) {
      LatestKey(history[..|history| - 1], key);
    }
  }

  // ----- the cache itself

  /** `retain(|queued| queued != key)`. */
  function Retain<K(==)>(order: seq<K>, key: K): seq<K> {
    if order == [] then []
    else if order[0] == key then Retain(order[1..], key)
    else [order[0]] + Retain(order[1..], key)
  }

  lemma {:induction false} RetainKeys<K, V>(rows: seq<Row<K, V>>, key: K)
    ensures Retain(Keys(rows), key) == Keys(Without(rows, key))
  {
    if rows != [] {
      assert Keys(rows)[1..] == Keys(rows[1..]);
      RetainKeys(rows[1..], key);
    }
  }

  lemma {:induction false} SumForget<K, V>(rows: seq<Row<K, V>>, i: nat)
    requires Distinct(rows) && i < |rows|
    ensures Sum(rows) == Sum(Without(rows, rows[i].key)) + rows[i].size
  {
    var key := rows[i].key;
    if i == 0 {
      NothingWithout(rows[1..], key);
    } else {
      assert Distinct(rows[1..]);
      SumForget(rows[1..], i - 1);
      assert Without(rows, key)[1..] == Without(rows[1..], key);
    }
  }

  lemma {:induction false} NothingWithout<K, V>(rows: seq<Row<K, V>>, key: K)
    requires forall i :: 0 <= i < |rows| ==> rows[i].key != key
    ensures Without(rows, key) == rows
  {
    if rows != [] {
      NothingWithout(rows[1..], key);
    }
  }

  datatype Entry<V> = Entry(value: V, size: nat)

  ghost predicate Holds<K, V>(rows: seq<Row<K, V>>, entries: map<K, Entry<V>>) {
    && (forall i :: 0 <= i < |rows| ==> rows[i].key in entries && entries[rows[i].key] == Entry(rows[i].value, rows[i].size))
    && (forall k :: k in entries ==> k in Keys(rows))
  }

  class Cache<K(==, !new), V(!new)> {
    var entries: map<K, Entry<V>>
    var order: seq<K>
    var bytes: nat
    ghost var rows: seq<Row<K, V>>

    ghost predicate Valid()
      reads this
    {
      Distinct(rows) && order == Keys(rows) && bytes == Sum(rows) && Holds(rows, entries)
    }

    constructor ()
      ensures Valid() && rows == []
    {
      entries, order, bytes, rows := map[], [], 0, [];
    }

    /** A hit is the value of the key's row; a miss means it has none. */
    method Get(key: K) returns (cached: Option<V>)
      requires Valid()
      ensures cached.Some? ==> exists i :: 0 <= i < |rows| && rows[i].key == key && rows[i].value == cached.value
      ensures cached.None? ==> forall i :: 0 <= i < |rows| ==> rows[i].key != key
    {
      if key in entries {
        ghost var i :| 0 <= i < |rows| && Keys(rows)[i] == key;
        return Some(entries[key].value);
      }
      cached := None;
    }

    /** The key may already have left the queue, as the oldest one has while room is made. */
    method Forget(key: K)
      requires Distinct(rows) && bytes == Sum(rows) && Holds(rows, entries)
      requires order == Keys(rows) || (rows != [] && rows[0].key == key && order == Keys(rows)[1..])
      modifies this
      ensures Valid() && rows == Without(old(rows), key)
    {
      hide Without;
      hide Retain;
      hide Sum;
      hide Distinct;
      hide Holds;
      hide Keys;
      if key !in entries {
        ForgetNothing(rows, entries, key);
        return;
      }
      ForgetRow(rows, entries, order, key);
      bytes := bytes - entries[key].size;
      entries := entries - {key};
      order := Retain(order, key);
      rows := Without(rows, key);
    }

    method Put(key: K, value: V, size: nat, budget: nat)
      requires Valid()
      modifies this
      ensures Valid() && rows == PutRow(old(rows), Row(key, value, size), budget)
    {
      hide Without;
      hide Evict;
      hide Sum;
      hide Distinct;
      hide Holds;
      hide Keys;
      NotIn(rows, key);
      Forget(key);
      ghost var start := rows;
      while bytes + size > budget
        invariant Valid()
        invariant Evict(rows, size, budget) == Evict(start, size, budget)
        invariant NoKey(rows, key)
        decreases |order|
      {
        if order == [] {
          break;
        }
        EvictOldest(rows, size, budget, key);
        var oldest := order[0];
        order := order[1..];
        Forget(oldest);
      }
      EvictDone(rows, size, budget);
      Append(rows, entries, Row(key, value, size));
      bytes := bytes + size;
      order := order + [key];
      entries := entries[key := Entry(value, size)];
      rows := rows + [Row(key, value, size)];
    }
  }

  ghost predicate NoKey<K, V>(rows: seq<Row<K, V>>, key: K) {
    forall i :: 0 <= i < |rows| ==> rows[i].key != key
  }

  lemma NotIn<K, V>(rows: seq<Row<K, V>>, key: K)
    ensures NoKey(Without(rows, key), key)
  {}

  lemma ForgetNothing<K, V>(rows: seq<Row<K, V>>, entries: map<K, Entry<V>>, key: K)
    requires Holds(rows, entries) && key !in entries
    ensures Without(rows, key) == rows
    ensures rows != [] ==> rows[0].key != key
  {
    NothingWithout(rows, key);
  }

  lemma ForgetRow<K, V>(rows: seq<Row<K, V>>, entries: map<K, Entry<V>>, order: seq<K>, key: K)
    requires Distinct(rows) && Holds(rows, entries) && key in entries
    requires order == Keys(rows) || (rows != [] && rows[0].key == key && order == Keys(rows)[1..])
    ensures Distinct(Without(rows, key)) && Holds(Without(rows, key), entries - {key})
    ensures Sum(rows) == Sum(Without(rows, key)) + entries[key].size
    ensures Retain(order, key) == Keys(Without(rows, key))
  {
    var i :| 0 <= i < |rows| && Keys(rows)[i] == key;
    SumForget(rows, i);
    RetainKeys(rows, key);
    DistinctWithout(rows, key);
    ForgetHolds(rows, entries, key);
  }

  /** While room is made: the oldest row is the one to go. */
  lemma EvictOldest<K, V>(rows: seq<Row<K, V>>, size: nat, budget: nat, key: K)
    requires Distinct(rows) && Keys(rows) != [] && Sum(rows) + size > budget && NoKey(rows, key)
    ensures rows != [] && rows[0].key == Keys(rows)[0]
    ensures Without(rows, rows[0].key) == rows[1..]
    ensures Evict(rows, size, budget) == Evict(rows[1..], size, budget)
    ensures NoKey(rows[1..], key) && |Keys(rows[1..])| == |Keys(rows)| - 1
  {
    NothingWithout(rows[1..], rows[0].key);
  }

  lemma EvictDone<K, V>(rows: seq<Row<K, V>>, size: nat, budget: nat)
    requires Sum(rows) + size <= budget || Keys(rows) == []
    ensures Evict(rows, size, budget) == rows
  {}

  lemma Append<K, V>(rows: seq<Row<K, V>>, entries: map<K, Entry<V>>, row: Row<K, V>)
    requires Distinct(rows) && Holds(rows, entries) && NoKey(rows, row.key)
    ensures Distinct(rows + [row]) && Holds(rows + [row], entries[row.key := Entry(row.value, row.size)])
    ensures Keys(rows + [row]) == Keys(rows) + [row.key] && Sum(rows + [row]) == Sum(rows) + row.size
  {
    hide Sum;
    hide Keys;
    SumAppend(rows, row);
    KeysAppend(rows, row);
  }

  lemma KeysAppend<K, V>(rows: seq<Row<K, V>>, row: Row<K, V>)
    ensures Keys(rows + [row]) == Keys(rows) + [row.key]
  {}

  lemma ForgetHolds<K, V>(rows: seq<Row<K, V>>, entries: map<K, Entry<V>>, key: K)
    requires Distinct(rows) && Holds(rows, entries)
    ensures Holds(Without(rows, key), entries - {key})
  {
    var left := Without(rows, key);
    forall i | 0 <= i < |left|
      ensures left[i].key in entries - {key} && entries[left[i].key] == Entry(left[i].value, left[i].size)
    {
      var j :| 0 <= j < |rows| && rows[j] == left[i];
    }
    forall k | k in entries - {key}
      ensures k in Keys(left)
    {
      var j :| 0 <= j < |rows| && Keys(rows)[j] == k;
      assert rows[j] in left;
      var m :| 0 <= m < |left| && left[m] == rows[j];
      assert Keys(left)[m] == k;
    }
  }
}
