/**
 * The hosted key-value store, reduced to the commands the two route handlers
 * issue: HINCRBY and HGETALL on hashes of integer fields, KEYS with a prefix
 * pattern, and LPUSH and LRANGE on lists.
 */
module KvStore {

  type Hash = map<string, int>

  /** The hash stored at `key`; a key never written reads as the empty hash. */
  function HashAt(hashes: map<string, Hash>, key: string): (h: Hash)
    ensures key in hashes ==> h == hashes[key]
    ensures key !in hashes ==> h == map[]
  {
    if key in hashes then hashes[key] else map[]
  }

  /** A hash field read the way the handlers read it: a missing field counts as 0. */
  function Field(h: Hash, field: string): (n: int)
    ensures field in h ==> n == h[field]
    ensures field !in h ==> n == 0
  {
    if field in h then h[field] else 0
  }

  /** HINCRBY on one hash: `field` goes up by `delta` (from 0 if absent); no other field moves. */
  function Incremented(h: Hash, field: string, delta: int): (r: Hash)
    ensures r.Keys == h.Keys + {field}
    ensures Field(r, field) == Field(h, field) + delta
    ensures forall f :: f != field ==> Field(r, f) == Field(h, f)
  {
    h[field := Field(h, field) + delta]
  }

  /** The whole keyspace after HINCRBY `key field delta`: the hash at `key` is created if need be, no other key changes. */
  function Bumped(hashes: map<string, Hash>, key: string, field: string, delta: int): (r: map<string, Hash>)
    ensures r.Keys == hashes.Keys + {key}
    ensures r[key] == Incremented(HashAt(hashes, key), field, delta)
    ensures Field(r[key], field) == Field(HashAt(hashes, key), field) + delta
    ensures forall f :: f != field ==> Field(r[key], f) == Field(HashAt(hashes, key), f)
    ensures forall k :: k != key && k in hashes ==> r[k] == hashes[k]
  {
    hashes[key := Incremented(HashAt(hashes, key), field, delta)]
  }

  /** HINCRBY with a non-negative amount never lowers any counter in the store. */
  lemma BumpMonotone(hashes: map<string, Hash>, key: string, field: string, delta: int)
    requires delta >= 0
    ensures forall k, f :: Field(HashAt(hashes, k), f) <= Field(HashAt(Bumped(hashes, key, field, delta), k), f)
  {
    var r := Bumped(hashes, key, field, delta);
    forall k, f ensures Field(HashAt(hashes, k), f) <= Field(HashAt(r, k), f) {
      if k == key && f == field {
      } else if k == key {
      }
    }
  }

  /** The list stored at `key`; a key never written reads as the empty list. */
  function ListAt<V>(lists: map<string, seq<V>>, key: string): (l: seq<V>)
    ensures key in lists ==> l == lists[key]
    ensures key !in lists ==> l == []
  {
    if key in lists then lists[key] else []
  }

  /** The whole keyspace after LPUSH `key item`: `item` is the new head, the old list its tail. */
  function Pushed<V>(lists: map<string, seq<V>>, key: string, item: V): (r: map<string, seq<V>>)
    ensures r.Keys == lists.Keys + {key}
    ensures |r[key]| == |ListAt(lists, key)| + 1
    ensures r[key][0] == item && r[key][1..] == ListAt(lists, key)
    ensures forall k :: k != key && k in lists ==> r[k] == lists[k]
  {
    lists[key := [item] + ListAt(lists, key)]
  }

  function Min(a: int, b: int): int
  {
    if a <= b then a else b
  }

  /**
   * LRANGE with non-negative bounds: the elements at positions `start` to
   * `stop` inclusive, cut off at the end of the list.
   */
  function Range<V>(l: seq<V>, start: nat, stop: nat): (r: seq<V>)
    ensures start < |l| && start <= stop ==> |r| == Min(stop + 1, |l|) - start
    ensures !(start < |l| && start <= stop) ==> r == []
    ensures forall i :: 0 <= i < |r| ==> start + i < |l| && r[i] == l[start + i]
  {
    if start < |l| && start <= stop then l[start..Min(stop + 1, |l|)] else []
  }

  /** A range from position 0 is a prefix of the list. */
  lemma RangeFromStart<V>(l: seq<V>, stop: nat)
    ensures Range(l, 0, stop) == l[..Min(stop + 1, |l|)]
  {
    if l == [] {
      assert l[..0] == [];
    }
  }

  /**
   * The store itself: two keyspaces, one of hashes and one of lists, each
   * updated in place by the commands below.
   */
  class Store<V> {
    var hashes: map<string, Hash>
    var lists: map<string, seq<V>>

    constructor ()
      ensures hashes == map[] && lists == map[]
    {
      hashes := map[];
      lists := map[];
    }

    /** HINCRBY */
    method HIncrBy(key: string, field: string, delta: int)
      modifies this
      ensures hashes == Bumped(old(hashes), key, field, delta)
      ensures lists == old(lists)
    {
      hashes := hashes[key := Incremented(HashAt(hashes, key), field, delta)];
    }

    /** HGETALL */
    method HGetAll(key: string) returns (h: Hash)
      ensures key in hashes ==> h == hashes[key]
      ensures key !in hashes ==> h == map[]
    {
      h := HashAt(hashes, key);
    }

    /** KEYS `prefix*`: every hash key that starts with `prefix`. */
    method Keys(prefix: string) returns (ks: set<string>)
      ensures forall k :: k in ks <==> k in hashes && prefix <= k
    {
      ks := set k | k in hashes && prefix <= k;
    }

    /** LPUSH */
    method LPush(key: string, item: V)
      modifies this
      ensures lists == Pushed(old(lists), key, item)
      ensures hashes == old(hashes)
    {
      lists := lists[key := [item] + ListAt(lists, key)];
    }

    /** LRANGE */
    method LRange(key: string, start: nat, stop: nat) returns (items: seq<V>)
      ensures items == Range(ListAt(lists, key), start, stop)
    {
      var l := ListAt(lists, key);
      items := if start < |l| && start <= stop then l[start..Min(stop + 1, |l|)] else [];
    }
  }
}
