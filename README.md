# Like relay: a verified model

A small HTTP relay lets a static website register "like" and "dislike"
actions on content items held by a remote content store. In memory it keeps
a per-host registry `hostItemLikes`. This is a map from the client's declared
`Host` header to the set of item ids that host has liked. The registry stops
one host from repeating an action. An accepted action is passed on to the
remote store as a GET of the item, a rewrite of its `likes` field, and a
PATCH back.

The model has five modules:

- `LikeRegistry` (registry.dfy) holds the registry as a
  `map<Host, set<ItemId>>`. It has value-level operations for lazy creation
  (`Ensure`), `Add`, `Remove` and whole-host deletion (`Drop`). It also has
  `Likers`, the set of hosts that currently like an item.
- `LikeCounter` (counter.dfy) holds the arithmetic on `likes`: `likes + 1`
  and `max(0, likes - 1)`, on unbounded `int`s.
- `Relay` (relay.dfy) gives each handler (`/clearref`, `/items/like`,
  `/items/dislike`) as one atomic transition on the registry plus the remote
  counts. An `Upstream(getOk, patchOk)` input says whether each remote call
  succeeds. These functions are the specification.
- `RelayServer` (server.dfy) has the class `Server`, whose field
  `hostItemLikes` the handler methods update in place in the source's order:
  lazy entry, guard, registry change, GET, PATCH. Each method is proved to
  produce exactly its `Relay` transition. The class `ItemStore` is the remote
  store reduced to a `map<ItemId, int>` of like counts.
- `Traces` (traces.dfy) runs request sequences. It proves an invariant
  under three conditions: the process starts fresh with an empty registry,
  every counter starts non-negative, and every like and dislike names an item
  the store holds, with both upstream calls succeeding. Then every item's
  counter stays at least the number of hosts that like it, so a dislike never
  reaches the zero floor. Without these conditions the floor is reachable:
  after a like whose GET failed, or on a counter the store reports as
  negative.

## Model

| member | source | states |
|---|---|---|
| LikeRegistry.Liked | index.js:53 | the `has` test used by both guards (lines 53 and 95): a host likes an item iff it has an entry and is one of the item's likers |
| LikeRegistry.Ensure | index.js:47-51 | afterwards the host has an entry; an existing entry is kept exactly, an unseen host gets an empty set, and no other host changes |
| LikeRegistry.EnsureIdempotent | index.js:47-49 | lazy creation is idempotent and is the identity for a host already present |
| LikeRegistry.Add | index.js:56 | the host's set gains exactly the given item; the keys and every other host's set are unchanged |
| LikeRegistry.Remove | index.js:98 | the host's set loses exactly the given item; the keys and every other host's set are unchanged |
| LikeRegistry.Drop | index.js:34 | the host's entry is gone, so it likes nothing; every other entry is unchanged |
| LikeRegistry.LikersAfterEnsure | index.js:47-49 | lazy creation changes no item's set of likers |
| LikeRegistry.LikersAfterAdd | index.js:56 | adding a new like adds exactly that host to the item's likers; adding another item leaves them alone; the count grows by at most one |
| LikeRegistry.LikersAfterRemove | index.js:98 | removing a like takes exactly that host out of the item's likers; removing another item leaves them alone |
| LikeRegistry.LikersAfterDrop | index.js:33-34 | deleting a host's entry removes that host from every item's likers, so their number never grows |
| LikeCounter.Incremented | index.js:66 | the counter written by a like is above the old one, and positive when the old one was not negative |
| LikeCounter.Decremented | index.js:108 | the counter written by a dislike is never negative; it is one less when positive and zero otherwise |
| LikeCounter.DecrementUndoesIncrement | index.js:108 | on a non-negative counter, the dislike rewrite undoes the like rewrite `likes + 1` of line 66 |
| LikeCounter.IncrementUndoesDecrement | index.js:108 | a like undoes a dislike exactly when the counter was at least one, that is, when the floor was not hit |
| Relay.Sync | index.js:57-80 | the GET-rewrite-PATCH cycle never touches the registry; it is answered iff both calls succeed and the item exists; then it writes and replies with `likes + 1` for a like or `max(0, likes - 1)` for a dislike, changing only that item; otherwise the store is unchanged and nothing is answered |
| Relay.LikeStep | index.js:41-83 | the host always has an entry afterwards and no other host changes; a repeated like gives 403 with the source's message and changes nothing; a first like adds exactly that item even when the upstream fails; the reply is 200 iff it is a first like with working upstream on an existing item, and then the counter is old + 1; a first like whose upstream fails gets no reply; in all other cases the counter is unchanged |
| Relay.DislikeStep | index.js:85-124 | the host always has an entry afterwards; disliking an item not liked gives 403 with the source's message, and the only change is the lazy empty entry; disliking a liked item removes exactly that item even when the upstream fails; the reply is 200 iff upstream works on an existing item, and then the counter is max(0, old - 1): old - 1 when old is positive, 0 otherwise; a dislike of a liked item whose upstream fails gets no reply |
| Relay.ClearStep | index.js:30-38 | the store never changes; the host's entry is deleted and no other host changes; a reply (200 with "Data cleared successfully for " + host) is sent iff the entry existed; an unknown host gets no reply and no change |
| Relay.LikeTwiceCountsOnce | index.js:53-56 | a second like is refused and leaves the state of the first, so the counter moves at most once, whatever the upstream did |
| Relay.LikeThenDislikeRestores | index.js:53-108 | with a working upstream and a non-negative counter, like then dislike gives replies old + 1 and old, and restores the host's set and the counter; only the lazy entry for an unseen host remains |
| Relay.DislikeThenLikeRestores | index.js:53-108 | dislike then like of a liked item restores the host's set; the counter is restored iff it was at least one |
| Relay.ClearTwiceIsSilent | index.js:33-37 | a second clear of the same host is not answered and changes nothing |
| Relay.DislikeAtFloorReportsZero | index.js:108 | for every state, an answered dislike of a liked item on a counter at zero or below replies 0 and writes 0 |
| Relay.FailedLikeThenFloor | index.js:56-109 | the floor is reachable: on a counter of 0, a like whose GET fails is kept locally, and the later answered dislike replies 0 and leaves the counter at 0 |
| Relay.FailedLikeDrifts | index.js:56-80 | a like whose GET fails keeps its registry entry and gets no reply; a later dislike is accepted and lowers the counter below its start (4 to 3), so the registry and the store drift apart |
| Relay.SingleHostScenario | index.js:41-124 | siteA likes "123" (4 to 5), is refused on a repeat like, dislikes it (5 to 4), and is refused on a repeat dislike |
| Relay.TwoHostScenario | index.js:41-83 | siteA and siteB each like "999" (7 to 8 to 9), each with its own registry entry |
| RelayServer.ItemStore.Get | index.js:58-65 | the abstract GET succeeds iff the store is reachable and holds the item, and then returns its `likes` |
| RelayServer.ItemStore.Patch | index.js:69-74 | the abstract PATCH succeeds iff the store is reachable and holds the item; it then rewrites only that item's `likes`, and otherwise changes nothing |
| RelayServer.Server.constructor | index.js:28 | the registry starts empty |
| RelayServer.Server.ClearRef | index.js:30-38 | the new registry and the reply are exactly those of `Relay.ClearStep` |
| RelayServer.Server.Like | index.js:41-83 | the new registry, the new store and the reply are exactly those of `Relay.LikeStep`, with the registry changed before the remote calls and never rolled back |
| RelayServer.Server.Dislike | index.js:85-124 | the new registry, the new store and the reply are exactly those of `Relay.DislikeStep`, with the same ordering |
| RelayServer.SingleHostSession | index.js:41-124 | a client using only the handlers' contracts gets the replies 200 (5), 403, 200 (4), 403 for like, like, dislike, dislike of "123" starting at 4 |
| Traces.InitiallyCovered | index.js:28 | a fresh process (empty registry) over non-negative counters satisfies the covering invariant |
| Traces.CoveredDislikeIsExact | index.js:108 | when the invariant holds, an answered dislike of a liked item lowers the counter by exactly one |
| Traces.LikePreservesCover | index.js:47-67 | a like with working upstream on an existing item keeps every counter at least its number of likers |
| Traces.DislikePreservesCover | index.js:90-109 | a dislike with working upstream on an existing item keeps the invariant |
| Traces.ClearPreservesCover | index.js:33-34 | a clear keeps the invariant, because it only forgets likes |
| Traces.RunPreservesCover | index.js:28-124 | along any sequence of requests whose upstream calls succeed on existing items, the store keeps its items and the invariant holds |
| Traces.NegativeStartReachesFloor | index.js:66-108 | the non-negative start is needed: a counter reported as -1 fails the invariant, and a served like then dislike both reply 0 |
| Traces.ServedDislikeNeverFloors | index.js:108 | from a fresh process over non-negative counters, after any such sequence an answered dislike of a liked item lowers the counter by exactly one, so the floor is never reached |

## Left out

- Express setup, CORS, the JSON and URL-encoded body parsers, the rate limiter and `app.listen` (index.js:1-24, 126-128) are framework configuration.
- `dotenv` loading, the collection id, the API key and the construction of URLs and bearer headers are configuration plumbing.
- The real HTTP calls to the remote content API are foreign network calls. The store is the abstract `ItemStore`, and whether each call succeeds is an input. A failing PATCH is treated as not applied. When a PATCH fails after the remote side has applied it, the store changes without a reply; the model does not include that case.
- The 200 reply body is the whole item returned by the PATCH. Only its `likes` field is modelled. The rest of the item payload is echoed unchanged and has no logic.
- Requests are modelled as atomic steps. Concurrent requests can interleave at the two `await` points, and the read-modify-write of the counter can then lose updates. That is concurrency and is not modelled.
- JavaScript's `Set` is a mutable object shared through the map. In the model it is a set value that is reassigned into the map. Nothing else holds a reference to it, so the behaviour is the same.
- `likes` is modelled as an unbounded integer. JavaScript numbers are floating point, so non-integer or non-numeric `likes` values and a missing `fieldData` are not modelled.
- `console.log` and `console.error` logging is I/O. A missing `itemID` body field or `Host` header (a JavaScript `undefined` key) is not modelled.
