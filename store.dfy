/** The order store: a map from order identifier to the current order record. */
module Store {
  import opened Orders

  type OrderMap = map<string, Order>

  /** Every record is stored under its own identifier. All writes in the service key the map by
      the written order's identifier, so this holds of every reachable store. */
  ghost predicate Keyed(m: OrderMap)
  {
    forall k :: k in m ==> m[k].id == k
  }

  /** Inserts `o`, replacing any record already stored under `o.id`. */
  function Put(m: OrderMap, o: Order): (m': OrderMap)
    ensures m'.Keys == m.Keys + {o.id}
    ensures m'[o.id] == o
    ensures forall k :: k in m && k != o.id ==> m'[k] == m[k]
    ensures Keyed(m) ==> Keyed(m')
  {
    m[o.id := o]
  }

  /** Looks `id` up; `None` when nothing was ever stored under it. */
  function Get(m: OrderMap, id: string): (r: Option<Order>)
    ensures r.Some? <==> id in m
    ensures r.Some? ==> r.value == m[id]
  {
    if id in m then Some(m[id]) else None
  }

  datatype Option<T> = None | Some(value: T)

  /** Stores the orders one after another, in sequence order. */
  function PutAll(m: OrderMap, os: seq<Order>): OrderMap
    decreases |os|
  {
    if os == [] then m else PutAll(Put(m, os[0]), os[1..])
  }

  /** The last order in `os` whose identifier is `id`, if any. */
  function LastWithId(os: seq<Order>, id: string): Option<Order>
  {
    if os == [] then None
    else if os[|os| - 1].id == id then Some(os[|os| - 1])
    else LastWithId(os[..|os| - 1], id)
  }

  /** A put is seen by the next get of the same identifier, and by no other. */
  lemma GetAfterPut(m: OrderMap, o: Order, id: string)
    ensures Get(Put(m, o), id) == if id == o.id then Some(o) else Get(m, id)
  {
  }

  /** Last write wins: after a sequence of puts, a get of `id` returns the last order put under
      `id`, or what the store held before when no order with that identifier was put. */
  lemma {:induction false} PutAllLastWriteWins(m: OrderMap, os: seq<Order>, id: string)
    ensures Get(PutAll(m, os), id) == if LastWithId(os, id).Some? then LastWithId(os, id) else Get(m, id)
    decreases |os|
  {
    if os != [] {
      PutAllLastWriteWins(Put(m, os[0]), os[1..], id);
      LastWithIdCons(os, id);
    }
  }

  lemma {:induction false} LastWithIdCons(os: seq<Order>, id: string)
    requires os != []
    ensures LastWithId(os, id) ==
      if LastWithId(os[1..], id).Some? then LastWithId(os[1..], id)
      else if os[0].id == id then Some(os[0]) else None
    decreases |os|
  {
    if |os| > 1 {
      var init := os[..|os| - 1];
      assert init[1..] == os[1..][..|os[1..]| - 1];
      if os[|os| - 1].id != id {
        LastWithIdCons(init, id);
      }
    }
  }

  /** A batch of puts keeps every record under its own identifier. */
  lemma {:induction false} PutAllKeyed(m: OrderMap, os: seq<Order>)
    requires Keyed(m)
    ensures Keyed(PutAll(m, os))
    decreases |os|
  {
    if os != [] {
      PutAllKeyed(Put(m, os[0]), os[1..]);
    }
  }

  /** The records stored by a batch of puts, one step at a time from the end. */
  lemma {:induction false} PutAllSnoc(m: OrderMap, os: seq<Order>, o: Order)
    ensures PutAll(m, os + [o]) == Put(PutAll(m, os), o)
    decreases |os|
  {
    if os == [] {
      assert os + [o] == [o];
    } else {
      assert (os + [o])[1..] == os[1..] + [o];
      PutAllSnoc(Put(m, os[0]), os[1..], o);
    }
  }
}
