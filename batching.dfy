/** The shipment batcher of the bidirectional ProcessOrders stream, as functions of the ids
    received: how a received id resolves to an order, how orders accumulate into per-destination
    combined shipments, and where the batch counter cuts the stream into flushed windows. */
module Batching {
  import opened Seqs
  import opened Orders

  /** The configured batch size (`orderBatchSize`). */
  const OrderBatchSize := 3

  /** Status label of every combined shipment. */
  const ShipmentStatus := "Processed!"

  /** Identifier of the combined shipment for destination `d`. */
  function ShipmentId(d: string): string
  {
    "cmb - " + d
  }

  /** The order a received id stands for: the stored record, or the zero-value order when the id
      is not in the store (a map lookup of an absent key yields the zero value). */
  function Resolve(store: map<string, Order>, id: string): (o: Order)
    ensures id in store ==> o == store[id]
    ensures id !in store ==> o == ZeroOrder && o.destination == ""
  {
    if id in store then store[id] else ZeroOrder
  }

  function Resolved(store: map<string, Order>, ids: seq<string>): (os: seq<Order>)
    ensures |os| == |ids| && forall i :: 0 <= i < |ids| ==> os[i] == Resolve(store, ids[i])
  {
    seq(|ids|, i requires 0 <= i < |ids| => Resolve(store, ids[i]))
  }

  /** One accepted order: appended to the shipment already held for its destination, or a new
      shipment for that destination holding just this order. */
  function Accept(pending: map<string, CombinedShipment>, o: Order): map<string, CombinedShipment>
  {
    var d := o.destination;
    if d in pending then
      pending[d := pending[d].(orders := pending[d].orders + [o])]
    else
      pending[d := CombinedShipment(ShipmentId(d), ShipmentStatus, [o])]
  }

  /** The accumulation map after accepting the orders of `w`, in order, into an empty map. */
  function Group(w: seq<Order>): map<string, CombinedShipment>
  {
    if w == [] then map[] else Accept(Group(w[..|w| - 1]), w[|w| - 1])
  }

  /** The orders of `w` bound for `d`, in arrival order, repeats included. */
  function Filter(w: seq<Order>, d: string): seq<Order>
  {
    if w == [] then []
    else (if w[0].destination == d then [w[0]] else []) + Filter(w[1..], d)
  }

  function Destinations(w: seq<Order>): set<string>
  {
    set o | o in w :: o.destination
  }

  lemma {:induction false} FilterSnoc(w: seq<Order>, o: Order, d: string)
    ensures Filter(w + [o], d) == Filter(w, d) + (if o.destination == d then [o] else [])
  {
    var tail := if o.destination == d then [o] else [];
    if w == [] {
      assert w + [o] == [o];
      assert Filter([o], d) == tail + Filter([], d);
    } else {
      var head := if w[0].destination == d then [w[0]] else [];
      assert (w + [o])[0] == w[0];
      assert (w + [o])[1..] == w[1..] + [o];
      assert Filter(w + [o], d) == head + Filter(w[1..] + [o], d);
      FilterSnoc(w[1..], o, d);
      assert Filter(w + [o], d) == head + (Filter(w[1..], d) + tail);
      assert Filter(w, d) == head + Filter(w[1..], d);
    }
  }

  lemma {:induction false} FilterNonEmpty(w: seq<Order>, d: string)
    ensures Filter(w, d) != [] <==> d in Destinations(w)
    ensures forall o :: o in Filter(w, d) ==> o.destination == d
  {
    if w != [] {
      FilterNonEmpty(w[1..], d);
      assert Destinations(w) == {w[0].destination} + Destinations(w[1..]) by {
        assert forall o :: o in w <==> o == w[0] || o in w[1..];
      }
    }
  }

  /** What the accumulation map holds: one shipment per destination seen in the window, named
      after that destination, with status "Processed!" and, in arrival order, exactly the
      window's orders bound there (repeated ids appear again). */
  lemma {:induction false} GroupCharacterized(w: seq<Order>)
    ensures Group(w).Keys == Destinations(w)
    ensures forall d :: d in Group(w) ==>
      Group(w)[d] == CombinedShipment(ShipmentId(d), ShipmentStatus, Filter(w, d))
  {
    if w != [] {
      var init, o := w[..|w| - 1], w[|w| - 1];
      assert w == init + [o];
      GroupCharacterized(init);
      forall d | d in Group(w)
        ensures Group(w)[d] == CombinedShipment(ShipmentId(d), ShipmentStatus, Filter(w, d))
      {
        FilterSnoc(init, o, d);
        if d != o.destination || d !in Group(init) {
          FilterNonEmpty(init, d);
        }
      }
      assert Destinations(w) == Destinations(init) + {o.destination} by {
        assert forall x :: x in w <==> x in init || x == o;
      }
    }
  }

  /** Each shipment of a window names a destination, is labelled "Processed!", is not empty and
      contains only orders bound for that destination. */
  ghost predicate WellFormed(s: CombinedShipment)
  {
    && s.status == ShipmentStatus
    && |s.orders| > 0
    && s.id == ShipmentId(s.orders[0].destination)
    && forall o :: o in s.orders ==> o.destination == s.orders[0].destination
  }

  lemma GroupWellFormed(w: seq<Order>, d: string)
    requires d in Group(w)
    ensures WellFormed(Group(w)[d]) && Group(w)[d].orders[0].destination == d
  {
    GroupCharacterized(w);
    FilterNonEmpty(w, d);
  }

  // ---------------------------------------------------------------------------------------------
  // Windows: where the batch counter flushes

  /** Number of ids in window `b` as the counter is written: it starts at 1, so the first
      window closes after OrderBatchSize ids; it restarts at 0, so every later window needs
      one id more. */
  function WindowSize(b: nat): nat
  {
    if b == 0 then OrderBatchSize else OrderBatchSize + 1
  }

  /** Cuts `w` into windows numbered from `b`: full windows, then the unfinished remainder (which
      is empty when `w` ends exactly at a flush). */
  function Split(w: seq<Order>, b: nat): (ws: seq<seq<Order>>)
    ensures |ws| > 0
    decreases |w|
  {
    if |w| < WindowSize(b) then [w] else [w[..WindowSize(b)]] + Split(w[WindowSize(b)..], b + 1)
  }

  /** The windows of a session whose received ids resolved to `w`. */
  function Windows(w: seq<Order>): (ws: seq<seq<Order>>)
    ensures |ws| > 0
  {
    Split(w, 0)
  }

  /** Flush timing and conservation: the windows put back together are the input; every window
      but the last holds exactly its size; the last holds fewer. */
  lemma {:induction false} SplitShape(w: seq<Order>, b: nat)
    ensures Concat(Split(w, b)) == w
    ensures forall i :: 0 <= i < |Split(w, b)| - 1 ==> |Split(w, b)[i]| == WindowSize(b + i)
    ensures |Split(w, b)[|Split(w, b)| - 1]| < WindowSize(b + |Split(w, b)| - 1)
    decreases |w|
  {
    var ws := Split(w, b);
    if |w| >= WindowSize(b) {
      var n := WindowSize(b);
      var rest := Split(w[n..], b + 1);
      SplitShape(w[n..], b + 1);
      assert ws == [w[..n]] + rest;
      assert ws[1..] == rest;
      assert w == w[..n] + w[n..];
      forall i | 1 <= i < |ws| - 1 ensures |ws[i]| == WindowSize(b + i) {
        assert ws[i] == rest[i - 1];
      }
    }
  }

  /** The first automatic flush comes after OrderBatchSize ids, every later one after
      OrderBatchSize + 1 ids, and the remainder at end of input is shorter than its window. */
  lemma WindowsShape(w: seq<Order>)
    ensures Concat(Windows(w)) == w
    ensures |Windows(w)[0]| == if |Windows(w)| == 1 then |w| else OrderBatchSize
    ensures forall i :: 1 <= i < |Windows(w)| - 1 ==> |Windows(w)[i]| == OrderBatchSize + 1
    ensures |Windows(w)[|Windows(w)| - 1]| < WindowSize(|Windows(w)| - 1)
  {
    SplitShape(w, 0);
    if |Windows(w)| == 1 {
      assert Concat(Windows(w)) == Windows(w)[0] + Concat(Windows(w)[1..]);
    }
  }

  /** How the windows grow by one received order: the order joins the open window, and when that
      window thereby reaches its size a new empty window opens after it. */
  lemma {:induction false} SplitSnoc(w: seq<Order>, o: Order, b: nat)
    ensures |Split(w, b)[|Split(w, b)| - 1]| + 1 == WindowSize(b + |Split(w, b)| - 1) ==>
      Split(w + [o], b) == Split(w, b)[..|Split(w, b)| - 1] + [Split(w, b)[|Split(w, b)| - 1] + [o], []]
    ensures |Split(w, b)[|Split(w, b)| - 1]| + 1 != WindowSize(b + |Split(w, b)| - 1) ==>
      Split(w + [o], b) == Split(w, b)[..|Split(w, b)| - 1] + [Split(w, b)[|Split(w, b)| - 1] + [o]]
    decreases |w|
  {
    var n := WindowSize(b);
    if |w| < n {
      if |w| + 1 == n {
        assert (w + [o])[..n] == w + [o];
        assert (w + [o])[n..] == [];
      }
    } else {
      assert (w + [o])[..n] == w[..n];
      assert (w + [o])[n..] == w[n..] + [o];
      var rest := Split(w[n..], b + 1);
      assert Split(w, b) == [w[..n]] + rest;
      assert Split(w + [o], b) == [w[..n]] + Split(w[n..] + [o], b + 1);
      SplitSnoc(w[n..], o, b + 1);
      assert Split(w, b)[|Split(w, b)| - 1] == rest[|rest| - 1];
      assert Split(w, b)[..|Split(w, b)| - 1] == [w[..n]] + rest[..|rest| - 1];
    }
  }

  // ---------------------------------------------------------------------------------------------
  // Flushes: the accumulation map sent in some order

  /** `keys` lists every key of `m` exactly once, in some order (map iteration order is not
      specified by the service's language). */
  ghost predicate Enumerates<V>(keys: seq<string>, m: map<string, V>)
  {
    Distinct(keys) && forall k :: k in m <==> k in keys
  }

  /** The shipments of `m` in the order `keys` lists them. */
  function ShipmentsAt(m: map<string, CombinedShipment>, keys: seq<string>): seq<CombinedShipment>
  {
    if keys == [] then []
    else (if keys[0] in m then [m[keys[0]]] else []) + ShipmentsAt(m, keys[1..])
  }

  /** Orders of the shipments of a window, listed destination by destination. */
  function FilterEach(keys: seq<string>, w: seq<Order>): seq<Order>
  {
    if keys == [] then [] else Filter(w, keys[0]) + FilterEach(keys[1..], w)
  }

  lemma {:induction false} FilterEachSnoc(keys: seq<string>, w: seq<Order>, o: Order)
    requires Distinct(keys)
    ensures multiset(FilterEach(keys, w + [o])) ==
      multiset(FilterEach(keys, w)) + if o.destination in keys then multiset{o} else multiset{}
  {
    if keys != [] {
      FilterSnoc(w, o, keys[0]);
      FilterEachSnoc(keys[1..], w, o);
      assert o.destination in keys <==> o.destination == keys[0] || o.destination in keys[1..];
      assert keys[0] !in keys[1..];
    }
  }

  lemma {:induction false} FilterEachConserves(keys: seq<string>, w: seq<Order>)
    requires Distinct(keys)
    requires Destinations(w) <= set k | k in keys
    ensures multiset(FilterEach(keys, w)) == multiset(w)
  {
    if w == [] {
      FilterEachEmpty(keys);
    } else {
      var init, o := w[..|w| - 1], w[|w| - 1];
      assert w == init + [o];
      assert Destinations(init) <= Destinations(w);
      assert o.destination in Destinations(w);
      FilterEachConserves(keys, init);
      FilterEachSnoc(keys, init, o);
    }
  }

  lemma {:induction false} FilterEachEmpty(keys: seq<string>)
    ensures FilterEach(keys, []) == []
  {
    if keys != [] {
      FilterEachEmpty(keys[1..]);
    }
  }

  lemma {:induction false} ShipmentsAtOrders(w: seq<Order>, keys: seq<string>)
    requires forall k :: k in keys ==> k in Group(w)
    ensures OrdersOf(ShipmentsAt(Group(w), keys)) == FilterEach(keys, w)
  {
    if keys != [] {
      GroupCharacterized(w);
      ShipmentsAtOrders(w, keys[1..]);
      OrdersOfAppend([Group(w)[keys[0]]], ShipmentsAt(Group(w), keys[1..]));
    }
  }

  /** Conservation within one flush: the shipments sent for a window contain, between them,
      exactly the window's orders, each as often as it was received. */
  lemma FlushConserves(w: seq<Order>, keys: seq<string>)
    requires Enumerates(keys, Group(w))
    ensures |ShipmentsAt(Group(w), keys)| == |Group(w)|
    ensures multiset(OrdersOf(ShipmentsAt(Group(w), keys))) == multiset(w)
  {
    GroupCharacterized(w);
    ShipmentsAtOrders(w, keys);
    FilterEachConserves(keys, w);
    ShipmentsAtLength(Group(w), keys);
  }

  lemma {:induction false} ShipmentsAtLength(m: map<string, CombinedShipment>, keys: seq<string>)
    requires Enumerates(keys, m)
    ensures |ShipmentsAt(m, keys)| == |m|
  {
    if keys == [] {
      assert m.Keys == {};
    } else {
      var m' := map k | k in m && k != keys[0] :: m[k];
      assert m'.Keys == m.Keys - {keys[0]};
      assert Enumerates(keys[1..], m');
      ShipmentsAtLength(m', keys[1..]);
      ShipmentsAtAgree(m, m', keys[1..]);
    }
  }

  lemma {:induction false} ShipmentsAtAgree(m: map<string, CombinedShipment>, m': map<string, CombinedShipment>, keys: seq<string>)
    requires forall k :: k in keys ==> k in m && k in m' && m[k] == m'[k]
    ensures ShipmentsAt(m, keys) == ShipmentsAt(m', keys)
  {
    if keys != [] {
      ShipmentsAtAgree(m, m', keys[1..]);
    }
  }

  /** Every shipment sent for a window is well formed. */
  lemma {:induction false} FlushWellFormed(w: seq<Order>, keys: seq<string>)
    ensures forall s :: s in ShipmentsAt(Group(w), keys) ==> WellFormed(s)
  {
    if keys != [] {
      FlushWellFormed(w, keys[1..]);
      if keys[0] in Group(w) {
        GroupWellFormed(w, keys[0]);
      }
    }
  }

  // ---------------------------------------------------------------------------------------------
  // A whole session: flush b sends the shipments of window b in the order flushKeys[b] gives

  /** Everything sent by the first |keys| flushes of a session with windows `ws`. */
  function Emitted(ws: seq<seq<Order>>, keys: seq<seq<string>>): seq<CombinedShipment>
  {
    if ws == [] || keys == [] then []
    else ShipmentsAt(Group(ws[0]), keys[0]) + Emitted(ws[1..], keys[1..])
  }

  /** What the flushes sent depends only on the windows they flushed. */
  lemma {:induction false} EmittedAgree(ws: seq<seq<Order>>, ws': seq<seq<Order>>, keys: seq<seq<string>>)
    requires |keys| <= |ws| && |keys| <= |ws'| && ws[..|keys|] == ws'[..|keys|]
    ensures Emitted(ws, keys) == Emitted(ws', keys)
  {
    if keys != [] {
      assert ws[0] == ws[..|keys|][0] == ws'[0];
      assert ws[1..][..|keys| - 1] == ws[..|keys|][1..];
      assert ws'[1..][..|keys| - 1] == ws'[..|keys|][1..];
      EmittedAgree(ws[1..], ws'[1..], keys[1..]);
    }
  }

  /** One more flush appends the shipments of the next window. */
  lemma {:induction false} EmittedSnoc(ws: seq<seq<Order>>, keys: seq<seq<string>>, k: seq<string>)
    requires |keys| < |ws|
    ensures Emitted(ws, keys + [k]) == Emitted(ws, keys) + ShipmentsAt(Group(ws[|keys|]), k)
  {
    if keys == [] {
      assert [] + [k] == [k];
    } else {
      assert (keys + [k])[1..] == keys[1..] + [k];
      EmittedSnoc(ws[1..], keys[1..], k);
    }
  }

  /** Every shipment a session sends is well formed. */
  lemma {:induction false} EmittedWellFormed(ws: seq<seq<Order>>, keys: seq<seq<string>>)
    ensures forall s :: s in Emitted(ws, keys) ==> WellFormed(s)
  {
    if ws != [] && keys != [] {
      FlushWellFormed(ws[0], keys[0]);
      EmittedWellFormed(ws[1..], keys[1..]);
    }
  }

  /** Conservation over a session: when every window has been flushed, the shipments sent hold
      exactly the orders of all windows, each as often as it was received. */
  lemma {:induction false} EmittedConserves(ws: seq<seq<Order>>, keys: seq<seq<string>>)
    requires |keys| == |ws|
    requires forall b :: 0 <= b < |ws| ==> Enumerates(keys[b], Group(ws[b]))
    ensures multiset(OrdersOf(Emitted(ws, keys))) == multiset(Concat(ws))
  {
    if ws != [] {
      FlushConserves(ws[0], keys[0]);
      EmittedConserves(ws[1..], keys[1..]);
      OrdersOfAppend(ShipmentsAt(Group(ws[0]), keys[0]), Emitted(ws[1..], keys[1..]));
    }
  }

  // ---------------------------------------------------------------------------------------------
  // The session loop's state between two receives

  /** Flush b sent the shipments of window b, for every flush so far. */
  ghost predicate FlushedAll(ws: seq<seq<Order>>, keys: seq<seq<string>>)
  {
    |keys| <= |ws| && forall b :: 0 <= b < |keys| ==> Enumerates(keys[b], Group(ws[b]))
  }

  /** The session's state at the head of its receive loop, for windows `ws` of the orders
      received so far: the accumulation map holds the open (last) window; the counter is the
      open window's length, plus one until the first flush, so it never exceeds
      OrderBatchSize; every earlier window has been flushed, and `sent` is what those flushes
      sent. */
  ghost predicate Accumulating(ws: seq<seq<Order>>, pending: map<string, CombinedShipment>,
                               marker: int, keys: seq<seq<string>>, sent: seq<CombinedShipment>)
  {
    && |ws| > 0
    && pending == Group(ws[|ws| - 1])
    && marker == |ws[|ws| - 1]| + (if |ws| == 1 then 1 else 0)
    && |ws[|ws| - 1]| < WindowSize(|ws| - 1)
    && |keys| == |ws| - 1
    && FlushedAll(ws, keys)
    && sent == Emitted(ws, keys)
  }

  lemma AccumulatingMarkerBound(ws: seq<seq<Order>>, pending: map<string, CombinedShipment>,
                                marker: int, keys: seq<seq<string>>, sent: seq<CombinedShipment>)
    requires Accumulating(ws, pending, marker, keys, sent)
    ensures 0 <= marker <= OrderBatchSize
    ensures marker == OrderBatchSize <==> |ws[|ws| - 1]| + 1 == WindowSize(|ws| - 1)
  {
  }

  /** Conservation at the loop head: the shipments held, listed in any order, contain as many
      orders as ids were received since the last flush, which is the counter (less the
      initial 1 before the first flush). */
  lemma PendingCount(ws: seq<seq<Order>>, pending: map<string, CombinedShipment>,
                     marker: int, keys: seq<seq<string>>, sent: seq<CombinedShipment>, k: seq<string>)
    requires Accumulating(ws, pending, marker, keys, sent)
    requires Enumerates(k, pending)
    ensures multiset(OrdersOf(ShipmentsAt(pending, k))) == multiset(ws[|ws| - 1])
    ensures |OrdersOf(ShipmentsAt(pending, k))| + (if keys == [] then 1 else 0) == marker
  {
    FlushConserves(ws[|ws| - 1], k);
    assert |multiset(OrdersOf(ShipmentsAt(pending, k)))| == |OrdersOf(ShipmentsAt(pending, k))|;
  }

  lemma ResolvedSnoc(store: map<string, Order>, ids: seq<string>, i: nat)
    requires i < |ids|
    ensures Resolved(store, ids[..i + 1]) == Resolved(store, ids[..i]) + [Resolve(store, ids[i])]
  {
  }

  /** A session starts with one empty open window, an empty map and the counter at 1. */
  lemma AccumulatingInitially()
    ensures Accumulating(Windows([]), map[], 1, [], [])
  {
    assert Windows([]) == [[]];
  }

  lemma {:induction false} AcceptGroup(w: seq<Order>, o: Order)
    ensures Accept(Group(w), o) == Group(w + [o])
  {
    assert (w + [o])[..|w|] == w;
  }

  /** Flushes recorded for earlier windows stay valid when only the open window changes. */
  lemma FlushedAllAgree(ws: seq<seq<Order>>, ws': seq<seq<Order>>, keys: seq<seq<string>>)
    requires |keys| <= |ws| && |keys| <= |ws'| && ws[..|keys|] == ws'[..|keys|]
    requires FlushedAll(ws, keys)
    ensures FlushedAll(ws', keys) && Emitted(ws, keys) == Emitted(ws', keys)
  {
    EmittedAgree(ws, ws', keys);
    forall b | 0 <= b < |keys| ensures ws'[b] == ws[b] {
      assert ws'[b] == ws'[..|keys|][b];
    }
  }

  /** Accepting an order when the counter is below the batch size: the order joins the open
      window and the counter moves up by one. */
  lemma AcceptWithoutFlush(before: seq<Order>, o: Order, pending: map<string, CombinedShipment>,
                           marker: int, keys: seq<seq<string>>, sent: seq<CombinedShipment>)
    requires Accumulating(Windows(before), pending, marker, keys, sent)
    requires marker != OrderBatchSize
    ensures Accumulating(Windows(before + [o]), Accept(pending, o), marker + 1, keys, sent)
  {
    var ws, ws' := Windows(before), Windows(before + [o]);
    var last := ws[|ws| - 1];
    SplitSnoc(before, o, 0);
    AcceptGroup(last, o);
    assert ws' == ws[..|ws| - 1] + [last + [o]];
    assert ws'[..|keys|] == ws[..|keys|];
    FlushedAllAgree(ws, ws', keys);
  }

  /** Accepting an order when the counter has reached the batch size: the order completes the
      open window, which is now due for flushing, and a new empty window opens after it. */
  lemma AcceptCompletesWindow(before: seq<Order>, o: Order, pending: map<string, CombinedShipment>,
                              marker: int, keys: seq<seq<string>>, sent: seq<CombinedShipment>)
    requires Accumulating(Windows(before), pending, marker, keys, sent)
    requires marker == OrderBatchSize
    ensures |Windows(before + [o])| == |keys| + 2
    ensures Accept(pending, o) == Group(Windows(before + [o])[|keys|])
    ensures Windows(before + [o])[|keys| + 1] == []
    ensures FlushedAll(Windows(before + [o]), keys)
    ensures sent == Emitted(Windows(before + [o]), keys)
  {
    var ws := Split(before, 0);
    var last := ws[|ws| - 1];
    AccumulatingMarkerBound(ws, pending, marker, keys, sent);
    assert |last| + 1 == WindowSize(0 + |ws| - 1);
    SplitSnoc(before, o, 0);
    var init := ws[..|ws| - 1];
    var ws' := Split(before + [o], 0);
    assert ws' == init + [last + [o], []];
    AcceptGroup(last, o);
    assert ws'[..|keys|] == init == ws[..|keys|];
    FlushedAllAgree(ws, ws', keys);
  }

  /** After the due window's shipments have been sent in the order `k`, the map is emptied and
      the counter restarts at 0. */
  lemma FlushRestarts(ws: seq<seq<Order>>, keys: seq<seq<string>>, k: seq<string>, sent: seq<CombinedShipment>)
    requires |ws| == |keys| + 2 && ws[|keys| + 1] == []
    requires FlushedAll(ws, keys) && sent == Emitted(ws, keys)
    requires Enumerates(k, Group(ws[|keys|]))
    ensures Accumulating(ws, map[], 0, keys + [k], sent + ShipmentsAt(Group(ws[|keys|]), k))
  {
    EmittedSnoc(ws, keys, k);
    assert Group([]) == map[];
  }

  /** The final flush at end of input: after it every window has been flushed. */
  lemma FinalFlush(ws: seq<seq<Order>>, pending: map<string, CombinedShipment>,
                   marker: int, keys: seq<seq<string>>, sent: seq<CombinedShipment>, k: seq<string>)
    requires Accumulating(ws, pending, marker, keys, sent)
    requires Enumerates(k, pending)
    ensures |keys + [k]| == |ws| && FlushedAll(ws, keys + [k])
    ensures Emitted(ws, keys + [k]) == sent + ShipmentsAt(pending, k)
    ensures multiset(OrdersOf(Emitted(ws, keys + [k]))) == multiset(Concat(ws))
  {
    EmittedSnoc(ws, keys, k);
    EmittedConserves(ws, keys + [k]);
  }
}
