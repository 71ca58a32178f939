/**
  Sequences of requests, each handled atomically, and what stays true along
  them. Starting from a fresh process (empty registry) over counters that
  are not negative, and with working upstream calls on items the store
  holds, an item's remote counter is never below the number of hosts that
  currently like it, so the zero floor of a dislike is never reached. A
  clear only lowers that number, since it forgets likes without touching
  the counter. Without the starting condition the floor is reachable.
 */
module Traces {
  import opened LikeRegistry
  import opened LikeCounter
  import opened Relay

  datatype Request =
    | LikeRequest(host: Host, item: ItemId, up: Upstream)
    | DislikeRequest(host: Host, item: ItemId, up: Upstream)
    | ClearRequest(host: Host)

  function Apply(s: State, q: Request): Step {
    match q
    case LikeRequest(h, i, up) => LikeStep(s, h, i, up)
    case DislikeRequest(h, i, up) => DislikeStep(s, h, i, up)
    case ClearRequest(h) => ClearStep(s, h)
  }

  /** The state after handling `qs` one after the other. */
  function Run(s: State, qs: seq<Request>): State
    decreases |qs|
  {
    if qs == [] then s else Run(Apply(s, qs[0]).state, qs[1..])
  }

  /** A request whose upstream calls both succeed on an item the store holds. */
  predicate Served(q: Request, items: set<ItemId>) {
    match q
    case LikeRequest(_, i, up) => up == Reliable && i in items
    case DislikeRequest(_, i, up) => up == Reliable && i in items
    case ClearRequest(_) => true
  }

  /** Every item's counter covers the hosts that like it. */
  ghost predicate CounterCoversLikers(s: State) {
    forall i :: i in s.store ==> |Likers(s.registry, i)| <= s.store[i]
  }

  /** A fresh process (empty registry) over non-negative counters is covered. */
  lemma InitiallyCovered(store: map<ItemId, int>)
    requires forall i :: i in store ==> store[i] >= 0
    ensures CounterCoversLikers(State(map[], store))
  {
  }

  /** Under a covering state, an answered dislike takes exactly one off. */
  lemma CoveredDislikeIsExact(s: State, host: Host, item: ItemId)
    requires CounterCoversLikers(s)
    requires Liked(s.registry, host, item) && item in s.store
    ensures DislikeStep(s, host, item, Reliable).reply == Item(s.store[item] - 1)
  {
  }

  lemma LikePreservesCover(s: State, host: Host, item: ItemId)
    requires CounterCoversLikers(s) && item in s.store
    ensures CounterCoversLikers(LikeStep(s, host, item, Reliable).state)
  {
    var t := LikeStep(s, host, item, Reliable).state;
    var reg := Ensure(s.registry, host);
    forall i | i in t.store ensures |Likers(t.registry, i)| <= t.store[i] {
      LikersAfterEnsure(s.registry, host, i);
      if !Liked(s.registry, host, item) {
        LikersAfterAdd(reg, host, item, i);
      }
    }
  }

  lemma DislikePreservesCover(s: State, host: Host, item: ItemId)
    requires CounterCoversLikers(s) && item in s.store
    ensures CounterCoversLikers(DislikeStep(s, host, item, Reliable).state)
  {
    var t := DislikeStep(s, host, item, Reliable).state;
    var reg := Ensure(s.registry, host);
    forall i | i in t.store ensures |Likers(t.registry, i)| <= t.store[i] {
      LikersAfterEnsure(s.registry, host, i);
      if Liked(s.registry, host, item) {
        LikersAfterRemove(reg, host, item, i);
        if i == item {
          CoveredDislikeIsExact(s, host, item);
        }
      }
    }
  }

  lemma ClearPreservesCover(s: State, host: Host)
    requires CounterCoversLikers(s)
    ensures CounterCoversLikers(ClearStep(s, host).state)
  {
    var t := ClearStep(s, host).state;
    forall i | i in t.store ensures |Likers(t.registry, i)| <= t.store[i] {
      LikersAfterDrop(s.registry, host, i);
    }
  }

  /** Along any sequence of served requests the store keeps its items and
      every counter keeps covering its likers. */
  lemma {:induction false} RunPreservesCover(s: State, qs: seq<Request>)
    requires CounterCoversLikers(s)
    requires forall k :: 0 <= k < |qs| ==> Served(qs[k], s.store.Keys)
    ensures Run(s, qs).store.Keys == s.store.Keys
    ensures CounterCoversLikers(Run(s, qs))
    decreases |qs|
  {
    if qs != [] {
      var t := Apply(s, qs[0]).state;
      match qs[0] {
        case LikeRequest(h, i, _) => LikePreservesCover(s, h, i);
        case DislikeRequest(h, i, _) => DislikePreservesCover(s, h, i);
        case ClearRequest(h) => ClearPreservesCover(s, h);
      }
      assert t.store.Keys == s.store.Keys;
      forall k | 0 <= k < |qs[1..]| ensures Served(qs[1..][k], t.store.Keys) {
        assert qs[1..][k] == qs[k + 1];
      }
      RunPreservesCover(t, qs[1..]);
    }
  }

  /** From a fresh process over non-negative counters, every answered dislike
      after any sequence of served requests lowers the counter by exactly one. */
  lemma ServedDislikeNeverFloors(store: map<ItemId, int>, qs: seq<Request>, host: Host, item: ItemId)
    requires forall i :: i in store ==> store[i] >= 0
    requires forall k :: 0 <= k < |qs| ==> Served(qs[k], store.Keys)
    requires item in store
    ensures Run(State(map[], store), qs).store.Keys == store.Keys
    ensures var s := Run(State(map[], store), qs);
      Liked(s.registry, host, item) ==>
        DislikeStep(s, host, item, Reliable).reply == Item(s.store[item] - 1)
  {
    InitiallyCovered(store);
    RunPreservesCover(State(map[], store), qs);
    var s := Run(State(map[], store), qs);
    if Liked(s.registry, host, item) {
      CoveredDislikeIsExact(s, host, item);
    }
  }

  /** The non-negative start is needed: a counter the store reports as -1
      reaches the floor with only served requests. */
  lemma NegativeStartReachesFloor()
    ensures var s0 := State(map[], map["x" := -1]);
      var s1 := LikeStep(s0, "siteA", "x", Reliable);
      var s2 := DislikeStep(s1.state, "siteA", "x", Reliable);
      && s1.reply == Item(0)
      && s2.reply == Item(0)
      && !CounterCoversLikers(s0)
  {
  }
}
