/**
  The three request handlers of the relay (`/clearref`, `/items/like`,
  `/items/dislike`) as one atomic transition each on the pair
  (registry, remote like counts). The remote item store is abstracted to a
  map from item id to its `likes` field; whether the GET and the PATCH to it
  succeed is an input of the request.
 */
module Relay {
  import opened LikeRegistry
  import opened LikeCounter

  /** Outcome of the two upstream calls of one request. A GET of an item the
      store does not hold fails too, whatever `getOk` says. */
  datatype Upstream = Upstream(getOk: bool, patchOk: bool)

  /** What the client receives. `Item` is the 200 reply carrying the updated
      item as returned by the PATCH, of which only `likes` is modelled;
      `NoReply` is a request that is never answered. */
  datatype Reply =
    | Item(likes: int)
    | Forbidden(message: string)
    | Cleared(message: string)
    | NoReply

  datatype State = State(registry: Registry, store: map<ItemId, int>)

  datatype Step = Step(state: State, reply: Reply)

  const AlreadyLikedMessage := "You have already liked this item."
  const NotLikedMessage := "You cannot dislike an item you haven't liked yet."
  const ClearedPrefix := "Data cleared successfully for "

  const Reliable := Upstream(true, true)

  /** The GET-modify-PATCH cycle on `item`, run after the registry has
      already been changed: `increase` chooses between the like and the
      dislike rewrite of `likes`. On any upstream failure the registry
      change stays and nothing is answered. */
  function Sync(s: State, item: ItemId, up: Upstream, increase: bool): (r: Step)
    ensures r.state.registry == s.registry
    ensures r.reply != NoReply <==> up.getOk && up.patchOk && item in s.store
    ensures r.reply == NoReply ==> r.state.store == s.store
    ensures r.reply != NoReply ==>
      && r.reply.Item?
      && r.state.store == s.store[item := r.reply.likes]
      && r.reply.likes == (if increase then Incremented(s.store[item]) else Decremented(s.store[item]))
  {
    if !(up.getOk && item in s.store) then Step(s, NoReply)
    else
      var updated := if increase then Incremented(s.store[item]) else Decremented(s.store[item]);
      if !up.patchOk then Step(s, NoReply)
      else Step(State(s.registry, s.store[item := updated]), Item(updated))
  }

  /** `POST /items/like` from `host` for `item`. */
  function LikeStep(s: State, host: Host, item: ItemId, up: Upstream): (r: Step)
    // the host always has an entry afterwards, and no other host changes
    ensures host in r.state.registry
    ensures r.state.registry.Keys == s.registry.Keys + {host}
    ensures forall h :: h in s.registry && h != host ==> r.state.registry[h] == s.registry[h]
    // a repeated like is refused and changes nothing
    ensures Liked(s.registry, host, item) ==>
      r == Step(s, Forbidden(AlreadyLikedMessage))
    // a first like adds exactly that item, whatever happens upstream
    ensures !Liked(s.registry, host, item) ==>
      && r.reply != Forbidden(AlreadyLikedMessage)
      && r.state.registry == Add(Ensure(s.registry, host), host, item)
    // the counter moves by one only on a first like with a working upstream
    ensures r.reply.Item? <==>
      !Liked(s.registry, host, item) && up.getOk && up.patchOk && item in s.store
    ensures r.reply.Item? ==>
      r.reply.likes == s.store[item] + 1 && r.state.store == s.store[item := s.store[item] + 1]
    ensures !r.reply.Item? ==> r.state.store == s.store
    // a first like whose upstream fails is never answered
    ensures !Liked(s.registry, host, item) && !r.reply.Item? ==> r.reply == NoReply
  {
    var reg := Ensure(s.registry, host);
    if item in reg[host] then
      Step(State(reg, s.store), Forbidden(AlreadyLikedMessage))
    else
      Sync(State(Add(reg, host, item), s.store), item, up, true)
  }

  /** `POST /items/dislike` from `host` for `item`. */
  function DislikeStep(s: State, host: Host, item: ItemId, up: Upstream): (r: Step)
    ensures host in r.state.registry
    ensures r.state.registry.Keys == s.registry.Keys + {host}
    ensures forall h :: h in s.registry && h != host ==> r.state.registry[h] == s.registry[h]
    // disliking what was not liked is refused; only the lazy entry may appear
    ensures !Liked(s.registry, host, item) ==>
      r == Step(State(Ensure(s.registry, host), s.store), Forbidden(NotLikedMessage))
    // disliking a liked item removes exactly that item, whatever happens upstream
    ensures Liked(s.registry, host, item) ==>
      && r.reply != Forbidden(NotLikedMessage)
      && r.state.registry == Remove(s.registry, host, item)
    ensures r.reply.Item? <==>
      Liked(s.registry, host, item) && up.getOk && up.patchOk && item in s.store
    // the counter goes down by one, but never below zero
    ensures r.reply.Item? ==>
      && r.reply.likes >= 0
      && r.reply.likes == Decremented(s.store[item])
      && (s.store[item] > 0 ==> r.reply.likes == s.store[item] - 1)
      && (s.store[item] <= 0 ==> r.reply.likes == 0)
      && r.state.store == s.store[item := r.reply.likes]
    ensures !r.reply.Item? ==> r.state.store == s.store
    // a dislike of a liked item whose upstream fails is never answered
    ensures Liked(s.registry, host, item) && !r.reply.Item? ==> r.reply == NoReply
  {
    var reg := Ensure(s.registry, host);
    if item !in reg[host] then
      Step(State(reg, s.store), Forbidden(NotLikedMessage))
    else
      Sync(State(Remove(reg, host, item), s.store), item, up, false)
  }

  /** `POST /clearref` from `host`. */
  function ClearStep(s: State, host: Host): (r: Step)
    ensures r.state.store == s.store
    ensures r.state.registry.Keys == s.registry.Keys - {host}
    ensures forall h :: h in r.state.registry ==> r.state.registry[h] == s.registry[h]
    ensures r.reply != NoReply <==> host in s.registry
    ensures host in s.registry ==> r.reply == Cleared(ClearedPrefix + host)
    ensures host !in s.registry ==> r == Step(s, NoReply)
  {
    if host in s.registry then
      Step(State(Drop(s.registry, host), s.store), Cleared(ClearedPrefix + host))
    else
      Step(s, NoReply)
  }

  /** Liking twice moves the counter once: the second like is refused and
      leaves the state the first one produced. */
  lemma LikeTwiceCountsOnce(s: State, host: Host, item: ItemId, first: Upstream, second: Upstream)
    ensures var once := LikeStep(s, host, item, first);
      LikeStep(once.state, host, item, second) == Step(once.state, Forbidden(AlreadyLikedMessage))
  {
  }

  /** A like followed by a dislike, both answered, gives back the host's set
      and a non-negative counter; only the lazy entry for an unseen host stays. */
  lemma LikeThenDislikeRestores(s: State, host: Host, item: ItemId)
    requires !Liked(s.registry, host, item)
    requires item in s.store && s.store[item] >= 0
    ensures var liked := LikeStep(s, host, item, Reliable);
      var back := DislikeStep(liked.state, host, item, Reliable);
      && liked.reply == Item(s.store[item] + 1)
      && back.reply == Item(s.store[item])
      && back.state == State(Ensure(s.registry, host), s.store)
  {
  }

  /** A dislike of a liked item followed by a like restores the host's set;
      the counter comes back only if the dislike did not hit the floor. */
  lemma DislikeThenLikeRestores(s: State, host: Host, item: ItemId)
    requires Liked(s.registry, host, item)
    requires item in s.store
    ensures var gone := DislikeStep(s, host, item, Reliable);
      var back := LikeStep(gone.state, host, item, Reliable);
      && back.state.registry == s.registry
      && (back.state.store == s.store <==> s.store[item] >= 1)
  {
    var gone := DislikeStep(s, host, item, Reliable);
    assert gone.state.registry == Remove(s.registry, host, item);
    var back := LikeStep(gone.state, host, item, Reliable);
    assert back.state.registry == Add(Remove(s.registry, host, item), host, item);
    assert s.registry[host] - {item} + {item} == s.registry[host];
    assert back.state.registry == s.registry;
    IncrementUndoesDecrement(s.store[item]);
    if back.state.store == s.store {
      assert back.state.store[item] == s.store[item];
    }
  }

  /** A second clear of the same host is never answered. */
  lemma ClearTwiceIsSilent(s: State, host: Host)
    ensures var once := ClearStep(s, host);
      ClearStep(once.state, host) == Step(once.state, NoReply)
  {
  }

  /** An answered dislike on a counter at zero or below reports and writes
      zero, for every state. */
  lemma DislikeAtFloorReportsZero(s: State, host: Host, item: ItemId)
    requires Liked(s.registry, host, item)
    requires item in s.store && s.store[item] <= 0
    ensures var r := DislikeStep(s, host, item, Reliable);
      r.reply == Item(0) && r.state.store == s.store[item := 0]
  {
  }

  /** The floor is reachable: a like whose GET fails on a counter of 0 is
      kept locally, and the later answered dislike reports 0, not -1. */
  lemma FailedLikeThenFloor()
    ensures var s := State(map[], map["123" := 0]);
      var liked := LikeStep(s, "siteA", "123", Upstream(false, true));
      var back := DislikeStep(liked.state, "siteA", "123", Reliable);
      && liked.reply == NoReply
      && back.reply == Item(0)
      && back.state.store == s.store
  {
  }

  /** The registry and the remote counter can drift apart: a like whose GET
      fails is kept locally, so a later answered dislike lowers the counter
      below where it started. */
  lemma FailedLikeDrifts()
    ensures var s := State(map[], map["123" := 4]);
      var liked := LikeStep(s, "siteA", "123", Upstream(false, true));
      var back := DislikeStep(liked.state, "siteA", "123", Reliable);
      && liked.reply == NoReply
      && Liked(liked.state.registry, "siteA", "123")
      && back.reply == Item(3)
      && back.state.store["123"] == 3
      && !Liked(back.state.registry, "siteA", "123")
  {
  }

  /** One host likes, re-likes, dislikes and re-dislikes an item whose
      counter starts at 4. */
  lemma SingleHostScenario()
    ensures var s0 := State(map[], map["123" := 4]);
      var s1 := LikeStep(s0, "siteA", "123", Reliable);
      var s2 := LikeStep(s1.state, "siteA", "123", Reliable);
      var s3 := DislikeStep(s2.state, "siteA", "123", Reliable);
      var s4 := DislikeStep(s3.state, "siteA", "123", Reliable);
      && s1.reply == Item(5)
      && s2.reply == Forbidden(AlreadyLikedMessage)
      && s3.reply == Item(4)
      && s4.reply == Forbidden(NotLikedMessage)
      && s4.state.store == s0.store
  {
  }

  /** Two hosts each like the same item: both are answered and the counter
      goes up twice, with independent registry entries. */
  lemma TwoHostScenario()
    ensures var s0 := State(map[], map["999" := 7]);
      var s1 := LikeStep(s0, "siteA", "999", Reliable);
      var s2 := LikeStep(s1.state, "siteB", "999", Reliable);
      && s1.reply == Item(8)
      && s2.reply == Item(9)
      && s2.state.registry == map["siteA" := {"999"}, "siteB" := {"999"}]
  {
    var s0 := State(map[], map["999" := 7]);
    var s1 := LikeStep(s0, "siteA", "999", Reliable);
    assert {} + {"999"} == {"999"};
    assert s1.state.registry == Add(Ensure(map[], "siteA"), "siteA", "999");
    assert s1.state.registry == map["siteA" := {"999"}];
    var s2 := LikeStep(s1.state, "siteB", "999", Reliable);
    assert s2.state.registry == Add(Ensure(s1.state.registry, "siteB"), "siteB", "999");
  }
}
