/**
 What the UDP and the TCP publisher share: a map of receivers with an atomic count beside it, and
 the walk of a publish over that map.
 */
module Registries {
  import opened Words
  import opened Heartbeats

  // count is what the atomic shows to other threads.
  datatype Table<K, V> = Table(entries: map<K, V>, count: U16)

  // static_cast<uint16_t>(entries.size())
  function Count16<K, V>(entries: map<K, V>): U16 {
    |entries| % 0x1_0000
  }

  function Counted<K, V>(entries: map<K, V>): Table<K, V> {
    Table(entries, Count16(entries))
  }

  predicate Accurate<K, V>(t: Table<K, V>) {
    t.count == Count16(t.entries)
  }

  lemma SameSize<K, V>(m: map<K, V>, n: map<K, V>)
    requires m.Keys == n.Keys
    ensures Count16(m) == Count16(n)
  {
    assert |m| == |m.Keys| && |n| == |n.Keys|;
  }

  // One receiver's turn: whether its send is refused, and what the clock shows at its check.
  datatype Visit<K> = Visit(key: K, refused: bool, now: Time)

  predicate Distinct<K(==)>(visits: seq<Visit<K>>) {
    forall i, j :: 0 <= i < j < |visits| ==> visits[i].key != visits[j].key
  }

  predicate Visits<K(==)>(visits: seq<Visit<K>>, k: K) {
    exists i :: 0 <= i < |visits| && visits[i].key == k
  }

  // A walk over the map, in its iteration order: every key once.
  ghost predicate Walks<K(!new), V>(visits: seq<Visit<K>>, entries: map<K, V>) {
    Distinct(visits) && forall k :: k in entries <==> Visits(visits, k)
  }

  // None of the first n sends is refused.
  predicate NoneRefused<K>(visits: seq<Visit<K>>, n: nat)
    requires n <= |visits|
  {
    forall i :: 0 <= i < n ==> !visits[i].refused
  }

  lemma RefusedPrefix<K>(visits: seq<Visit<K>>, m: nat, n: nat)
    requires n <= m <= |visits|
    ensures NoneRefused(visits[..m], n) == NoneRefused(visits, n)
  {
    assert forall i :: 0 <= i < n ==> visits[..m][i] == visits[i];
  }

  lemma WalkIndex<K(!new), V>(visits: seq<Visit<K>>, entries: map<K, V>, k: K) returns (i: nat)
    requires Walks(visits, entries) && k in entries
    ensures i < |visits| && visits[i].key == k
  {
    assert Visits(visits, k);
    i :| 0 <= i < |visits| && visits[i].key == k;
  }

  lemma WalkKey<K(!new), V>(visits: seq<Visit<K>>, entries: map<K, V>, i: nat)
    requires Walks(visits, entries) && i < |visits|
    ensures visits[i].key in entries
  {
    assert Visits(visits, visits[i].key);
  }
}
