/**
  The per-host like registry: a process-wide map from the client's declared
  host to the set of item ids that host currently has a like on
  (`hostItemLikes` in index.js). The operations here are the value-level
  meaning of the in-place `Map`/`Set` mutations the request handlers perform.
 */
module LikeRegistry {

  type Host = string
  type ItemId = string
  type Registry = map<Host, set<ItemId>>

  /** True iff `host` has an active like on `item`, that is, iff `host` is
      one of the item's likers. */
  predicate Liked(r: Registry, host: Host, item: ItemId)
    ensures Liked(r, host, item) ==> host in r
    ensures Liked(r, host, item) <==> host in Likers(r, item)
  {
    host in r && item in r[host]
  }

  /** Lazy creation of a host's entry: an unseen host gets an empty set,
      an existing entry is left exactly as it is. */
  function Ensure(r: Registry, host: Host): (r': Registry)
    ensures host in r'
    ensures r'.Keys == r.Keys + {host}
    ensures forall h :: h in r ==> r'[h] == r[h]
    ensures host !in r ==> r'[host] == {}
    ensures forall i :: Liked(r', host, i) <==> Liked(r, host, i)
  {
    if host in r then r else r[host := {}]
  }

  /** Adds `item` to the set of a host that already has an entry. */
  function Add(r: Registry, host: Host, item: ItemId): (r': Registry)
    requires host in r
    ensures r'.Keys == r.Keys
    ensures forall h :: h in r && h != host ==> r'[h] == r[h]
    ensures forall i :: Liked(r', host, i) <==> i == item || Liked(r, host, i)
  {
    r[host := r[host] + {item}]
  }

  /** Removes `item` from the set of a host that already has an entry. */
  function Remove(r: Registry, host: Host, item: ItemId): (r': Registry)
    requires host in r
    ensures r'.Keys == r.Keys
    ensures forall h :: h in r && h != host ==> r'[h] == r[h]
    ensures forall i :: Liked(r', host, i) <==> i != item && Liked(r, host, i)
  {
    r[host := r[host] - {item}]
  }

  /** Deletes a host's whole entry (a no-op for an unknown host). */
  function Drop(r: Registry, host: Host): (r': Registry)
    ensures r'.Keys == r.Keys - {host}
    ensures forall h :: h in r' ==> r'[h] == r[h]
    ensures forall i :: !Liked(r', host, i)
  {
    r - {host}
  }

  /** The hosts that currently have a like on `item`. */
  function Likers(r: Registry, item: ItemId): set<Host> {
    set h | h in r && item in r[h]
  }

  /** Lazy creation is idempotent and never overwrites an existing entry. */
  lemma EnsureIdempotent(r: Registry, host: Host)
    ensures Ensure(Ensure(r, host), host) == Ensure(r, host)
    ensures host in r ==> Ensure(r, host) == r
  {
  }

  /** Lazy creation changes no item's likers. */
  lemma LikersAfterEnsure(r: Registry, host: Host, item: ItemId)
    ensures Likers(Ensure(r, host), item) == Likers(r, item)
  {
  }

  /** Adding `item` for a host that did not like it adds exactly that host
      to the item's likers; adding another item leaves them alone. */
  lemma LikersAfterAdd(r: Registry, host: Host, added: ItemId, item: ItemId)
    requires host in r
    ensures added == item && item !in r[host] ==>
      host !in Likers(r, item) && Likers(Add(r, host, added), item) == Likers(r, item) + {host}
    ensures added != item ==> Likers(Add(r, host, added), item) == Likers(r, item)
    ensures |Likers(Add(r, host, added), item)| <= |Likers(r, item)| + 1
  {
    var r' := Add(r, host, added);
    forall h ensures h in Likers(r', item) <==> h in Likers(r, item) || (h == host && added == item) {
      assert Liked(r', h, item) <==> Liked(r, h, item) || (h == host && added == item);
    }
    if added == item && item !in r[host] {
      assert Likers(r', item) == Likers(r, item) + {host};
    } else if added == item {
      assert Likers(r', item) == Likers(r, item);
    }
  }

  /** Removing a liked `item` takes exactly that host out of its likers;
      removing another item leaves them alone. */
  lemma LikersAfterRemove(r: Registry, host: Host, removed: ItemId, item: ItemId)
    requires host in r
    ensures removed == item && item in r[host] ==>
      host in Likers(r, item) && Likers(Remove(r, host, removed), item) == Likers(r, item) - {host}
    ensures removed != item ==> Likers(Remove(r, host, removed), item) == Likers(r, item)
  {
  }

  /** Dropping a host never adds likers. */
  lemma LikersAfterDrop(r: Registry, host: Host, item: ItemId)
    ensures Likers(Drop(r, host), item) == Likers(r, item) - {host}
    ensures |Likers(Drop(r, host), item)| <= |Likers(r, item)|
  {
  }
}
