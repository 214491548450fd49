# Petunia Directory — a Dafny model

Petunia Directory is a single-page directory of community services. Each
category lists contacts with phone numbers. Two small HTTP handlers keep
feedback per entry in a hosted key-value store:

- `/api/reactions` keeps up/down/comments counters in one hash per entry, under `reactions:<key>`.
- `/api/comments` keeps a list of comments per entry, newest first, under `comments:<key>`.

The model has five modules:

- `Text` (`text.dfy`): the whitespace class shared by the `\s` regex escape and `trim`, plus `trim`, ASCII `toLowerCase` and `includes`.
- `DirectoryPage` (`directory_page.dfy`): `formatPhone`, the sidebar's category filter, and the page state the sidebar updates. All of it is pure functions.
- `KvStore` (`kv_store.dfy`): the store as a `Store` class. It has one map of hashes and one map of lists, and methods for the five commands the handlers use: HINCRBY, HGETALL, KEYS, LPUSH and LRANGE. Beside each method is the pure function that gives the new state or the answer.
- `ReactionsRoute` (`reactions_route.dfy`): POST is a validated single-field increment followed by a read-back. GET is a loop over the `reactions:` keys that fills the answer map one key at a time.
- `CommentsRoute` (`comments_route.dfy`): GET is a bounded read of the head of the list. POST validates, trims and truncates the text, pushes the comment, and bumps the entry's `comments` counter.

`Wrappers` (`wrappers.dfy`) holds the `Option` type for request fields that may be missing, and the `Reply` type: a payload, or an error status such as 400.

The handlers' HTTP and JSON layer is reduced to arguments and a `Reply`. A request body is given as its already-parsed fields, and a missing field is `None`. `Date.now()` becomes the parameter `now`.

What the code does, and so what the model does:

- A comment is a text and a timestamp; it has no author field.
- Entry keys arrive as given in the request; no slugging happens in these handlers.
- GET on comments returns the stored items as they are, without filtering them.
- The sidebar search looks only at category names, not at entry names or phone numbers.

## Model

| member | source | states |
|---|---|---|

| Text.SkipLeading | app/api/comments/route.ts:33 | the scan from position `i` stops at the first non-whitespace character or at the end, and everything it passed is whitespace |
| Text.SkipTrailing | app/api/comments/route.ts:33 | the scan back from position `j` stops after the last non-whitespace character or at the lower bound, and everything it passed is whitespace |
| Text.Trim | app/api/comments/route.ts:33 | the result is a contiguous slice of the input with only whitespace on either side, and it neither starts nor ends with whitespace |
| Text.TrimEmptyIff | app/api/comments/route.ts:29 | `trim` gives the empty string exactly when the input is all whitespace (both directions) |
| Text.TrimIdempotent | app/api/comments/route.ts:33 | trimming a trimmed string changes nothing |
| Text.IsWhitespace | app/page.tsx:19 | the whitespace class of `\s` and `trim`; no digit, `+` or ASCII letter is whitespace |
| Text.LowerChar | app/page.tsx:43 | an ASCII capital maps to its own lower-case letter (code point + 32); every other character is unchanged |
| Text.Lower | app/page.tsx:43 | lower-casing keeps the length and maps every character with `LowerChar` |
| Text.LowerNoCapitals | app/page.tsx:43 | lower-casing leaves a string without capitals unchanged, and leaves no capital behind |
| Text.LowerIdempotent | app/page.tsx:43 | lower-casing twice is lower-casing once |
| Text.Contains | app/page.tsx:43 | `includes`: a string contains itself, and a contained string is no longer than the one containing it |
| Text.ContainsEmpty | app/page.tsx:43 | the empty search text is contained in every name |
| DirectoryPage.StripWhitespace | app/page.tsx:19 | the result contains no whitespace and is a subsequence of the input, so the characters kept keep their order |
| DirectoryPage.StripWhitespaceChar | app/page.tsx:19 | a single whitespace character disappears and any other character stays |
| DirectoryPage.StripWhitespaceAppend | app/page.tsx:19 | stripping whitespace distributes over concatenation, so each character is kept or dropped independently |
| DirectoryPage.StripWhitespaceNone | app/page.tsx:19 | a string with no whitespace is left unchanged |
| DirectoryPage.DropLeadingZero | app/page.tsx:21 | exactly one leading `0` is removed when present; otherwise the string is unchanged |
| DirectoryPage.FormatPhone | app/page.tsx:18-22 | the result starts with `+` and has no whitespace; if the stripped input starts with `+` it is returned as is, otherwise `+91` is put before it with at most one leading `0` removed |
| DirectoryPage.FormatPhoneIdempotent | app/page.tsx:18-22 | formatting a formatted number changes nothing |
| DirectoryPage.FormatPhoneExamples | app/page.tsx:18-22 | `"00123"` gives `"+910123"`, `""` gives `"+91"`, `"+1"` stays `"+1"` |
| DirectoryPage.FormatPhoneSpacedExample | app/page.tsx:18-22 | `" 0 8"` gives `"+918"`: whitespace goes first, then the leading zero |
| DirectoryPage.Matches | app/page.tsx:43 | the category test: an empty search matches every category, and a matching search is no longer than the name |
| DirectoryPage.Filtered | app/page.tsx:42-44 | the list is an order-preserving subsequence of the directory, and it holds exactly the categories whose lower-cased name contains the lower-cased search |
| DirectoryPage.FilteredAppend | app/page.tsx:42-44 | filtering a concatenation gives the concatenation of the filtered parts, so each category is kept in place or dropped on its own merits |
| DirectoryPage.FilteredEmptySearch | app/page.tsx:42-44 | an empty search keeps the whole directory |
| DirectoryPage.Initial | app/page.tsx:39-40 | the first render selects the first category and has an empty search |
| DirectoryPage.Typed | app/page.tsx:62 | typing in the search box changes the search and keeps the selection |
| DirectoryPage.Select | app/page.tsx:70-73 | a click makes that category the selection and resets the search to the empty string |
| DirectoryPage.SelectListsAll | app/page.tsx:70-73 | after a click on any listed category, the sidebar lists the whole directory again and the clicked category is selected |
| KvStore.HashAt | app/api/reactions/route.ts:45-47 | a key that was never written reads as an empty hash |
| KvStore.Field | app/api/reactions/route.ts:50-52 | a missing hash field reads as 0 |
| KvStore.Incremented | app/api/reactions/route.ts:44 | the named field goes up by the amount (starting from 0 if absent), every other field keeps its value, and the field set gains only that field |
| KvStore.Bumped | app/api/reactions/route.ts:44 | HINCRBY creates the hash if needed, makes the key's hash `Incremented` of the old one (only the named field changes), and leaves every other key unchanged |
| KvStore.BumpMonotone | app/api/reactions/route.ts:44 | an increment by a non-negative amount never lowers any field of any key |
| KvStore.ListAt | app/api/comments/route.ts:19 | a key that was never written reads as the empty list |
| KvStore.Pushed | app/api/comments/route.ts:36 | LPUSH makes the item the head of the key's list, with the old list as its tail; every other list is unchanged |
| KvStore.Range | app/api/comments/route.ts:19 | LRANGE `start stop` gives the elements at positions `start` to `stop` inclusive, cut off at the end of the list, and nothing when `start` is past the end |
| KvStore.RangeFromStart | app/api/comments/route.ts:19 | a range from position 0 is the prefix of length min(stop + 1, length) |
| KvStore.Store.HIncrBy | app/api/reactions/route.ts:44 | the hash keyspace becomes `Bumped` of the old one; the lists are unchanged |
| KvStore.Store.HGetAll | app/api/reactions/route.ts:45-47 | it returns the stored hash, or the empty hash for an unknown key |
| KvStore.Store.Keys | app/api/reactions/route.ts:14 | it returns exactly the hash keys that start with the prefix |
| KvStore.Store.LPush | app/api/comments/route.ts:36 | the list keyspace becomes `Pushed` of the old one; the hashes are unchanged |
| KvStore.Store.LRange | app/api/comments/route.ts:19 | it returns `Range` of the stored list |
| ReactionsRoute.CounterKey | app/api/reactions/route.ts:44 | the counter key is `reactions:` followed by the entry key, and stripping the prefix gives the entry key back |
| ReactionsRoute.CountersOf | app/api/reactions/route.ts:23-25 | the three counters are the hash's `up`, `down` and `comments` fields, and an empty hash reads as `{0, 0, 0}` |
| ReactionsRoute.ValidVote | app/api/reactions/route.ts:39 | a missing or empty key, or a type other than `up`/`down`, is rejected; an accepted type is `up` or `down` |
| ReactionsRoute.CounterKeyInjective | app/api/reactions/route.ts:21 | two entry keys never share a counter hash, so stripping the prefix recovers the entry key |
| ReactionsRoute.Post | app/api/reactions/route.ts:36-57 | a missing or empty `key`, or a `type` other than `up`/`down`, answers 400 and writes nothing; otherwise exactly that field of `reactions:<key>` goes up by 1 and the answer is the three counters read back, with missing fields as 0; lists are never touched |
| ReactionsRoute.VoteCounters | app/api/reactions/route.ts:44-53 | a valid vote reports the voted counter up by one and the other two counters unchanged |
| ReactionsRoute.FreshEntryVotes | app/api/reactions/route.ts:44-53 | on an unseen entry, one `up` reads `{1, 0, 0}` and a second reads `{2, 0, 0}` |
| ReactionsRoute.VotesAccumulate | app/api/reactions/route.ts:44 | after `n` votes of one kind, that counter has grown by exactly `n`; the entry's other counters and every other hash are unchanged |
| ReactionsRoute.EntryKeysIff | app/api/reactions/route.ts:21 | a stripped key comes from a stored hash exactly when the prefixed key is in the store |
| ReactionsRoute.Listing | app/api/reactions/route.ts:14-30 | the answer has an entry for key `e` exactly when `reactions:e` is stored and `e` is not `__proto__` (the plain result object turns that assignment into a prototype change, which JSON output omits); each entry holds its counters with missing fields as 0 |
| ReactionsRoute.ProtoVoteUnlisted | app/api/reactions/route.ts:22 | a vote on `__proto__` is stored but never listed by GET |
| ReactionsRoute.ListingEmpty | app/api/reactions/route.ts:15 | with no `reactions:` key in the store, the answer is `{}` |
| ReactionsRoute.Get | app/api/reactions/route.ts:11-30 | the loop over the KEYS answer builds exactly `Listing` of the store, skipping `__proto__` |
| CommentsRoute.ListKey | app/api/comments/route.ts:36 | the list key is `comments:` followed by the entry key, and stripping the prefix gives the entry key back |
| CommentsRoute.ValidKey | app/api/comments/route.ts:16 | a missing or empty key is rejected |
| CommentsRoute.ValidPost | app/api/comments/route.ts:29 | needs an accepted key and a text; a present text is accepted exactly when it is not all whitespace |
| CommentsRoute.Normalize | app/api/comments/route.ts:33 | the stored text is the prefix of the trimmed text of length min(500, trimmed length); for text that is not all whitespace it is non-empty and starts with a non-whitespace character |
| CommentsRoute.NormalizeCut | app/api/comments/route.ts:33 | a trimmed text of 500 characters or fewer is stored whole; a longer one is stored as its first 500 characters |
| CommentsRoute.NormalizeExample | app/api/comments/route.ts:33 | `"  great doctor  "` is stored as `"great doctor"` |
| CommentsRoute.Recent | app/api/comments/route.ts:19 | the GET answer is the prefix of the stored list of length min(50, stored length) |
| CommentsRoute.Get | app/api/comments/route.ts:13-20 | a missing or empty `key` answers 400; otherwise the answer is `Recent` of the entry's list |
| CommentsRoute.Post | app/api/comments/route.ts:26-40 | an empty `key`, or text that is missing or empty after trimming, answers 400 and changes nothing; otherwise the normalised comment stamped with `now` is returned, pushed at the head of `comments:<key>`, and the `comments` field of `reactions:<key>` goes up by 1 |
| CommentsRoute.PostThenGet | app/api/comments/route.ts:36 | a GET after a POST answers the new comment at index 0, followed by the head of the previous answer, with min(50, old length + 1) items |
| CommentsRoute.PostCounters | app/api/comments/route.ts:37 | posting raises the entry's `comments` counter by one and leaves `up` and `down` unchanged |
| CommentsRoute.KeysDisjoint | app/api/comments/route.ts:36-37 | the comment list key and the counter hash key of any two entries are different, so the two writes touch different keys |

## Left out

- Rendering: the JSX markup, Tailwind classes, `PhoneLink`'s anchor and the SVG icon are UI only. `FormatPhone` is what `PhoneLink` puts in its `tel:` link.
- Store construction: `getRedis` and its environment variables are not modelled. The store is the `Store` object passed to each handler.
- Store and transport failures: the `catch` branches are not modelled. These are GET on reactions answering `{}`, GET on comments answering `[]`, and POSTs answering 500.
- Body parsing: request fields are modelled as `Option<string>`, so a field is a string or missing. What the model does not cover:
  - A body that is not JSON reaches the `catch` branch and answers 500.
  - A numeric or object `key` passes the `!key` test. It is turned into a string inside the store key, such as `reactions:5` or `comments:[object Object]`.
  - A `key` of `0`, `false` or `null` answers 400, the same as a missing key.
  - A `type` that is not a string answers 400, because `includes` finds no match.
  - A `text` of `null` answers 400, the same as a missing text.
  - Any other `text` that is not a string, such as a number or `false`, throws at `trim`. It reaches the `catch` branch and answers 500.
- Concurrency: each request is modelled as running alone against the store.
  - Another request's HINCRBY can land between a reactions POST's HINCRBY and its HGETALL (app/api/reactions/route.ts:44-45). The answer then shows that other write too.
  - A write can land between a reactions GET's KEYS and its HGETALLs (app/api/reactions/route.ts:14, 20). That also changes the answer.
  - `Promise.all` is modelled as sequential writes. The comment POST's LPUSH and HINCRBY touch different keys (`CommentsRoute.KeysDisjoint`), so their order does not change the final state.
  - A partial failure between those two writes is not modelled.
- Keyspace: the store is two separate maps, one of hashes and one of lists. The real store has one keyspace, where a command on a key of the wrong type fails. KEYS sees only the hashes.
- KEYS patterns: only the single `reactions:*` prefix pattern is modelled, not general glob matching.
- LRANGE: negative indices (counted from the end) are not modelled, since the handlers only use 0 and 49.
- Field values: hash fields are stored as integers, so the `Number()` conversion of string fields is not modelled. Integers are unbounded, so the store's 64-bit overflow error on HINCRBY is not modelled.
- Text.Lower: does not model Unicode case mapping. Only the ASCII letters are lower-cased, where `toLowerCase` maps every cased character.
- CommentsRoute.Normalize: does not model UTF-16 code units. Length and truncation count Dafny characters (Unicode scalar values), where `slice` counts UTF-16 code units and can split a surrogate pair.
- Reactions GET order: KEYS returns keys in an order the store chooses, so the loop takes them in an unspecified order. The answer is a map, so the order has no effect on it.
