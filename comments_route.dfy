/**
 * `/api/comments`: per-entry comment lists kept newest first under the key
 * `comments:<entry key>`, with a count of them kept in the entry's counter hash.
 */
module CommentsRoute {
  import opened Wrappers
  import opened Text
  import opened KvStore
  import ReactionsRoute

  const ListPrefix: string := "comments:"

  /** The longest comment text that is stored. */
  const MaxText: nat := 500

  /** The most comments a GET returns: LRANGE from 0 to 49. */
  const PageSize: nat := 50

  datatype Comment = Comment(text: string, timestamp: int)

  /** The store key of an entry's comment list. */
  function ListKey(key: string): (k: string)
    ensures |k| == |ListPrefix| + |key| && ListPrefix <= k
    ensures k[|ListPrefix|..] == key
  {
    ListPrefix + key
  }

  /**
   * `text.trim().slice(0, 500)`: the stored text is the first at most 500
   * characters of the trimmed text; for a text that is not all whitespace it
   * is non-empty and starts with a character other than whitespace.
   */
  function Normalize(text: string): (r: string)
    ensures |r| == Min(MaxText, |Trim(text)|)
    ensures r <= Trim(text)
    ensures !AllWhitespace(text) ==> r != [] && !IsWhitespace(r[0])
  {
    TrimEmptyIff(text);
    var t := Trim(text);
    t[..Min(MaxText, |t|)]
  }

  /** A trimmed text of at most 500 characters is stored whole; a longer one is cut to its first 500. */
  lemma NormalizeCut(text: string)
    ensures |Trim(text)| <= MaxText ==> Normalize(text) == Trim(text)
    ensures |Trim(text)| > MaxText ==> Normalize(text) == Trim(text)[..MaxText]
  {
  }

  lemma NormalizeExample()
    ensures Normalize("  great doctor  ") == "great doctor"
  {
    var s := "  great doctor  ";
    assert SkipLeading(s, 0) == SkipLeading(s, 1) == SkipLeading(s, 2) == 2;
    assert SkipTrailing(s, 2, 16) == SkipTrailing(s, 2, 15) == SkipTrailing(s, 2, 14) == 14;
    assert s[2..14] == "great doctor";
  }

  /** GET's check: a non-empty `key` query parameter. */
  predicate ValidKey(key: Option<string>)
    ensures key == None || key == Some("") ==> !ValidKey(key)
    ensures ValidKey(key) ==> |key.value| > 0
  {
    key.Some? && key.value != ""
  }

  /** POST's check: a non-empty `key` and a `text` that is not empty once trimmed. */
  predicate ValidPost(key: Option<string>, text: Option<string>)
    ensures ValidPost(key, text) ==> ValidKey(key) && text.Some?
    ensures text.Some? ==> (ValidPost(key, text) <==> ValidKey(key) && !AllWhitespace(text.value))
  {
    ValidKey(key) && text.Some? && (TrimEmptyIff(text.value); Trim(text.value) != "")
  }

  /** The GET answer: the first 50 comments of the entry's list, or all of them if there are fewer. */
  function Recent(lists: map<string, seq<Comment>>, key: string): (r: seq<Comment>)
    ensures |r| == Min(PageSize, |ListAt(lists, ListKey(key))|)
    ensures r == ListAt(lists, ListKey(key))[..|r|]
  {
    RangeFromStart(ListAt(lists, ListKey(key)), PageSize - 1);
    Range(ListAt(lists, ListKey(key)), 0, PageSize - 1)
  }

  /** GET: 400 without a key, otherwise one LRANGE 0 49 of the entry's list. */
  method Get(store: Store<Comment>, key: Option<string>) returns (r: Reply<seq<Comment>>)
    ensures !ValidKey(key) ==> r == Error(BadRequest)
    ensures ValidKey(key) ==> r == Ok(Recent(store.lists, key.value))
  {
    if !ValidKey(key) {
      return Error(BadRequest);
    }
    var raw := store.LRange(ListKey(key.value), 0, PageSize - 1);
    r := Ok(raw);
  }

  /**
   * POST: on a valid body, the normalised comment stamped with `now` is pushed
   * at the head of the entry's list and the entry's `comments` counter goes up
   * by one; otherwise 400 and no write.
   */
  method Post(store: Store<Comment>, key: Option<string>, text: Option<string>, now: int) returns (r: Reply<Comment>)
    modifies store
    ensures !ValidPost(key, text) ==>
              r == Error(BadRequest) && store.hashes == old(store.hashes) && store.lists == old(store.lists)
    ensures ValidPost(key, text) ==>
              var c := Comment(Normalize(text.value), now);
              && r == Ok(c)
              && store.lists == Pushed(old(store.lists), ListKey(key.value), c)
              && store.hashes == Bumped(old(store.hashes), ReactionsRoute.CounterKey(key.value), "comments", 1)
  {
    if !ValidPost(key, text) {
      return Error(BadRequest);
    }
    var comment := Comment(Normalize(text.value), now);
    store.LPush(ListKey(key.value), comment);
    store.HIncrBy(ReactionsRoute.CounterKey(key.value), "comments", 1);
    r := Ok(comment);
  }

  /**
   * A GET right after a POST answers the new comment first, followed by what
   * a GET answered before it, so the answer stays newest first.
   */
  lemma PostThenGet(lists: map<string, seq<Comment>>, key: string, c: Comment)
    ensures var before := Recent(lists, key);
            var after := Recent(Pushed(lists, ListKey(key), c), key);
            && |after| == Min(PageSize, |ListAt(lists, ListKey(key))| + 1)
            && after[0] == c
            && after[1..] == before[..|after| - 1]
  {
    var old_ := ListAt(lists, ListKey(key));
    var new_ := ListAt(Pushed(lists, ListKey(key), c), ListKey(key));
    assert new_ == [c] + old_;
    var after := Recent(Pushed(lists, ListKey(key), c), key);
    assert after[1..] == new_[1..|after|];
  }

  /** Posting a comment raises the entry's `comments` counter by one and leaves `up` and `down` as they were. */
  lemma PostCounters(hashes: map<string, Hash>, key: string)
    ensures var k := ReactionsRoute.CounterKey(key);
            var before := ReactionsRoute.CountersOf(HashAt(hashes, k));
            ReactionsRoute.CountersOf(Bumped(hashes, k, "comments", 1)[k]) == before.(comments := before.comments + 1)
  {
  }

  /** A comment's list and its counter hash are different keys, so the two writes are independent. */
  lemma KeysDisjoint(key: string, other: string)
    ensures ListKey(key) != ReactionsRoute.CounterKey(other)
  {
    assert ListKey(key)[0] == 'c' && ReactionsRoute.CounterKey(other)[0] == 'r';
  }
}
