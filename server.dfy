/**
  The running relay: the process-wide registry as a mutable field, and the
  handlers as methods that change it in place in the order index.js does
  (registry first, then the remote GET and PATCH). Each handler is proved to
  be the corresponding transition of module Relay.
 */
module RelayServer {
  import opened LikeRegistry
  import opened LikeCounter
  import opened Relay

  datatype Option<T> = None | Some(value: T)

  /** The remote item store, reduced to the `likes` field of each item.
      Whether a call reaches it is decided by the caller's `reachable`. */
  class ItemStore {
    var likes: map<ItemId, int>

    constructor (initial: map<ItemId, int>)
      ensures likes == initial
    {
      likes := initial;
    }

    /** The GET of one item: fails when unreachable or when there is no such item. */
    method Get(id: ItemId, reachable: bool) returns (r: Option<int>)
      ensures r.Some? <==> reachable && id in likes
      ensures r.Some? ==> r.value == likes[id]
    {
      if reachable && id in likes {
        r := Some(likes[id]);
      } else {
        r := None;
      }
    }

    /** The PATCH of one item's `likes`; a failed call changes nothing. */
    method Patch(id: ItemId, value: int, reachable: bool) returns (ok: bool)
      modifies this
      ensures ok <==> reachable && id in old(likes)
      ensures likes == if ok then old(likes)[id := value] else old(likes)
    {
      ok := reachable && id in likes;
      if ok {
        likes := likes[id := value];
      }
    }
  }

  class Server {
    var hostItemLikes: Registry
    const items: ItemStore

    constructor (store: ItemStore)
      ensures hostItemLikes == map[] && items == store
    {
      hostItemLikes := map[];
      items := store;
    }

    /** The registry together with the remote counts. */
    function Snapshot(): State
      reads this, items
    {
      State(hostItemLikes, items.likes)
    }

    /** `POST /clearref`. */
    method ClearRef(host: Host) returns (reply: Reply)
      modifies this
      ensures Step(Snapshot(), reply) == ClearStep(old(Snapshot()), host)
    {
      reply := NoReply;
      if host in hostItemLikes {
        hostItemLikes := hostItemLikes - {host};
        reply := Cleared(ClearedPrefix + host);
      }
    }

    /** `POST /items/like`. */
    method Like(host: Host, item: ItemId, up: Upstream) returns (reply: Reply)
      modifies this, items
      ensures Step(Snapshot(), reply) == LikeStep(old(Snapshot()), host, item, up)
    {
      if host !in hostItemLikes {
        hostItemLikes := hostItemLikes[host := {}];
      }
      var itemsLikedByHost := hostItemLikes[host];
      if item in itemsLikedByHost {
        return Forbidden(AlreadyLikedMessage);
      }
      hostItemLikes := hostItemLikes[host := itemsLikedByHost + {item}];
      var fetched := items.Get(item, up.getOk);
      if fetched.None? {
        return NoReply;
      }
      var updatedLikes := Incremented(fetched.value);
      var patched := items.Patch(item, updatedLikes, up.patchOk);
      reply := if patched then Item(updatedLikes) else NoReply;
    }

    /** `POST /items/dislike`. */
    method Dislike(host: Host, item: ItemId, up: Upstream) returns (reply: Reply)
      modifies this, items
      ensures Step(Snapshot(), reply) == DislikeStep(old(Snapshot()), host, item, up)
    {
      if host !in hostItemLikes {
        hostItemLikes := hostItemLikes[host := {}];
      }
      var itemsLikedByHost := hostItemLikes[host];
      if item !in itemsLikedByHost {
        return Forbidden(NotLikedMessage);
      }
      hostItemLikes := hostItemLikes[host := itemsLikedByHost - {item}];
      var fetched := items.Get(item, up.getOk);
      if fetched.None? {
        return NoReply;
      }
      var updatedLikes := Decremented(fetched.value);
      var patched := items.Patch(item, updatedLikes, up.patchOk);
      reply := if patched then Item(updatedLikes) else NoReply;
    }
  }

  /** A client of the server that relies only on the handlers' contracts:
      the single-host scenario on a store where item "123" has 4 likes. */
  method SingleHostSession() returns (replies: seq<Reply>)
    ensures replies == [Item(5), Forbidden(AlreadyLikedMessage), Item(4), Forbidden(NotLikedMessage)]
  {
    var store := new ItemStore(map["123" := 4]);
    var server := new Server(store);
    var r1 := server.Like("siteA", "123", Reliable);
    var r2 := server.Like("siteA", "123", Reliable);
    var r3 := server.Dislike("siteA", "123", Reliable);
    var r4 := server.Dislike("siteA", "123", Reliable);
    replies := [r1, r2, r3, r4];
  }
}
