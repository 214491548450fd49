/**
 * `/api/reactions`: per-entry up/down/comments counters kept in one hash per
 * entry under the key `reactions:<entry key>`.
 */
module ReactionsRoute {
  import opened Wrappers
  import opened KvStore

  const Prefix: string := "reactions:"

  /** The store key of an entry's counter hash. */
  function CounterKey(key: string): (k: string)
    ensures |k| == |Prefix| + |key| && Prefix <= k
    ensures k[|Prefix|..] == key
  {
    Prefix + key
  }

  /** Two entry keys never share a counter hash. */
  lemma CounterKeyInjective(a: string, b: string)
    ensures CounterKey(a) == CounterKey(b) ==> a == b
  {
    if CounterKey(a) == CounterKey(b) {
      assert a == CounterKey(a)[|Prefix|..];
      assert b == CounterKey(b)[|Prefix|..];
    }
  }

  /** The JSON object `{up, down, comments}` a handler returns for one entry. */
  datatype Counters = Counters(up: int, down: int, comments: int)

  /** The counters read from a hash, each missing field read as 0. */
  function CountersOf(h: Hash): (c: Counters)
    ensures c.up == Field(h, "up") && c.down == Field(h, "down") && c.comments == Field(h, "comments")
    ensures h == map[] ==> c == Counters(0, 0, 0)
  {
    Counters(Field(h, "up"), Field(h, "down"), Field(h, "comments"))
  }

  /** The POST body check: a non-empty `key` and a `type` of `up` or `down`. */
  predicate ValidVote(key: Option<string>, kind: Option<string>)
    ensures key == None || key == Some("") ==> !ValidVote(key, kind)
    ensures kind.Some? && kind.value != "up" && kind.value != "down" ==> !ValidVote(key, kind)
    ensures ValidVote(key, kind) ==> kind == Some("up") || kind == Some("down")
  {
    && key.Some? && key.value != ""
    && kind.Some? && (kind.value == "up" || kind.value == "down")
  }

  /**
   * POST: on a valid body, one HINCRBY of field `type` on the entry's hash,
   * then the entry's counters read back; otherwise 400 and no write.
   */
  method Post<V>(store: Store<V>, key: Option<string>, kind: Option<string>) returns (r: Reply<Counters>)
    modifies store
    ensures !ValidVote(key, kind) ==> r == Error(BadRequest) && store.hashes == old(store.hashes)
    ensures ValidVote(key, kind) ==>
              && store.hashes == Bumped(old(store.hashes), CounterKey(key.value), kind.value, 1)
              && r == Ok(CountersOf(store.hashes[CounterKey(key.value)]))
    ensures store.lists == old(store.lists)
  {
    if !ValidVote(key, kind) {
      return Error(BadRequest);
    }
    store.HIncrBy(CounterKey(key.value), kind.value, 1);
    var data := store.HGetAll(CounterKey(key.value));
    r := Ok(CountersOf(data));
  }

  /** A valid vote raises the voted counter by one and reports the other two as they were. */
  lemma VoteCounters(hashes: map<string, Hash>, key: string, kind: string)
    requires ValidVote(Some(key), Some(kind))
    ensures var before := CountersOf(HashAt(hashes, CounterKey(key)));
            var after := CountersOf(Bumped(hashes, CounterKey(key), kind, 1)[CounterKey(key)]);
            && (kind == "up" ==> after == before.(up := before.up + 1))
            && (kind == "down" ==> after == before.(down := before.down + 1))
  {
  }

  /** An unseen entry voted up once reads `{1, 0, 0}`, and voted up again `{2, 0, 0}`. */
  lemma FreshEntryVotes(hashes: map<string, Hash>, key: string)
    requires key != "" && CounterKey(key) !in hashes
    ensures var once := Bumped(hashes, CounterKey(key), "up", 1);
            var twice := Bumped(once, CounterKey(key), "up", 1);
            && CountersOf(once[CounterKey(key)]) == Counters(1, 0, 0)
            && CountersOf(twice[CounterKey(key)]) == Counters(2, 0, 0)
  {
  }

  /** The keyspace after `n` valid votes of the same kind on the same entry. */
  function AfterVotes(hashes: map<string, Hash>, key: string, kind: string, n: nat): map<string, Hash>
  {
    if n == 0 then hashes else Bumped(AfterVotes(hashes, key, kind, n - 1), CounterKey(key), kind, 1)
  }

  /** `n` votes raise that counter by exactly `n`; the entry's other counters and every other hash stay. */
  lemma {:induction false} VotesAccumulate(hashes: map<string, Hash>, key: string, kind: string, n: nat)
    ensures Field(HashAt(AfterVotes(hashes, key, kind, n), CounterKey(key)), kind)
            == Field(HashAt(hashes, CounterKey(key)), kind) + n
    ensures forall f :: f != kind ==>
              Field(HashAt(AfterVotes(hashes, key, kind, n), CounterKey(key)), f)
              == Field(HashAt(hashes, CounterKey(key)), f)
    ensures forall k :: k != CounterKey(key) ==> HashAt(AfterVotes(hashes, key, kind, n), k) == HashAt(hashes, k)
  {
    if n > 0 {
      VotesAccumulate(hashes, key, kind, n - 1);
    }
  }

  /** The entry keys whose counter hash exists. */
  function EntryKeys(hashes: map<string, Hash>): set<string>
  {
    set k | k in hashes && Prefix <= k :: k[|Prefix|..]
  }

  lemma EntryKeysIff(hashes: map<string, Hash>, e: string)
    ensures e in EntryKeys(hashes) <==> CounterKey(e) in hashes
  {
    if CounterKey(e) in hashes {
      var k := CounterKey(e);
      assert Prefix <= k && k[|Prefix|..] == e;
    }
    if e in EntryKeys(hashes) {
      var k :| k in hashes && Prefix <= k && k[|Prefix|..] == e;
      assert k == CounterKey(e);
    }
  }

  /**
   * The one entry key the answer cannot carry: the answer is built in a plain
   * object, where assigning to `__proto__` replaces the object's prototype
   * instead of adding a property, so JSON serialisation leaves it out.
   */
  const ProtoKey: string := "__proto__"

  /**
   * The GET answer: one entry per `reactions:` hash, under its key with the
   * prefix stripped, except for the entry key `__proto__`.
   */
  function Listing(hashes: map<string, Hash>): (r: map<string, Counters>)
    ensures forall e :: e in r <==> CounterKey(e) in hashes && e != ProtoKey
    ensures forall e :: e in r ==> r[e] == CountersOf(hashes[CounterKey(e)])
  {
    forall e ensures e in EntryKeys(hashes) <==> CounterKey(e) in hashes {
      EntryKeysIff(hashes, e);
    }
    map e | e in EntryKeys(hashes) && e != ProtoKey :: CountersOf(hashes[CounterKey(e)])
  }

  /** A vote on the entry key `__proto__` is stored, but GET never lists it. */
  lemma ProtoVoteUnlisted(hashes: map<string, Hash>)
    ensures var after := Bumped(hashes, CounterKey(ProtoKey), "up", 1);
            CounterKey(ProtoKey) in after && ProtoKey !in Listing(after)
  {
  }

  /** With no counter hash in the store, GET answers `{}`. */
  lemma ListingEmpty(hashes: map<string, Hash>)
    requires forall k :: k in hashes ==> !(Prefix <= k)
    ensures Listing(hashes) == map[]
  {
    forall e ensures CounterKey(e) !in hashes {
      assert Prefix <= CounterKey(e);
    }
    assert Listing(hashes).Keys == {};
  }

  /**
   * GET: KEYS `reactions:*`, then one HGETALL per key, each stored in the
   * answer under the key with the prefix stripped; the assignment to
   * `__proto__` adds no entry.
   */
  method Get<V>(store: Store<V>) returns (r: map<string, Counters>)
    ensures r == Listing(store.hashes)
  {
    var keys := store.Keys(Prefix);
    if keys == {} {
      ListingEmpty(store.hashes);
      return map[];
    }
    r := map[];
    var todo := keys;
    while todo != {}
      invariant todo <= keys
      invariant forall e :: e in r <==> CounterKey(e) in keys - todo && e != ProtoKey
      invariant forall e :: e in r ==> CounterKey(e) in store.hashes && r[e] == CountersOf(store.hashes[CounterKey(e)])
      decreases todo
    {
      var k :| k in todo;
      var data := store.HGetAll(k);
      var entryKey := k[|Prefix|..];
      assert CounterKey(entryKey) == k;
      forall e ensures CounterKey(e) == k <==> e == entryKey {
        CounterKeyInjective(e, entryKey);
      }
      if entryKey != ProtoKey {
        r := r[entryKey := CountersOf(data)];
      }
      todo := todo - {k};
    }
  }
}
