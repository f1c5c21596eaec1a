/** The order-management service: one shared order store and the five operations on it, with
    the streams of the RPC transport modelled as sequences. An inbound stream is the sequence of
    messages received followed by how it ended (`StreamEnd`); an outbound stream is the sequence
    of messages sent, and the transport accepts `sendLimit` messages before a send fails. */
module Server {
  import opened Seqs
  import opened Orders
  import opened Strings
  import opened Store
  import opened Batching

  /** The two literal parts of the bulk-update reply. */
  const ReplyPrefix := "Orders processed "
  const IdsHeading := "Updated Order IDs : "

  /** The cut set the bulk-update reply is trimmed with: comma and space. */
  const IdSeparators: set<char> := {',', ' '}

  /** An order matches a search query when one of its items contains the query. */
  predicate Matches(o: Order, query: string)
  {
    exists item :: item in o.items && Contains(item, query)
  }

  /** The text the bulk update accumulates: each identifier followed by ", ". */
  function IdList(ids: seq<string>): string
  {
    if ids == [] then "" else IdList(ids[..|ids| - 1]) + ids[|ids| - 1] + ", "
  }

  /** One more received order extends the accumulated text by its identifier and ", ". */
  lemma IdListStep(os: seq<Order>, i: nat)
    requires i < |os|
    ensures IdsHeading + IdList(IdsOf(os[..i + 1])) == IdsHeading + IdList(IdsOf(os[..i])) + os[i].id + ", "
  {
    var ids := IdsOf(os[..i + 1]);
    assert ids[..i] == IdsOf(os[..i]);
    assert ids[i] == os[i].id;
  }

  /** The reply of a bulk update that received orders with identifiers `ids`. */
  function UpdateReply(ids: seq<string>): string
  {
    ReplyPrefix + TrimRight(IdsHeading + IdList(ids), IdSeparators)
  }

  /** An identifier the reply's trimming cannot eat into: non-empty and not ending in a comma or
      a space. */
  ghost predicate PlainId(id: string)
  {
    id != [] && id[|id| - 1] !in IdSeparators
  }

  lemma {:induction false} IdListJoin(ids: seq<string>)
    requires ids != []
    ensures IdList(ids) == Join(ids, ", ") + ", "
  {
    var init := ids[..|ids| - 1];
    if init != [] {
      IdListJoin(init);
    } else {
      assert IdList(init) == "";
    }
  }

  lemma {:induction false} JoinEndsWithLast(ids: seq<string>)
    requires ids != [] && ids[|ids| - 1] != []
    ensures Join(ids, ", ") != [] && Join(ids, ", ")[|Join(ids, ", ")| - 1] == ids[|ids| - 1][|ids[|ids| - 1]| - 1]
  {
  }

  /** The bulk-update reply lists the received identifiers separated by ", " when the last of
      them does not end in a comma or a space (only the trailing separator is trimmed away). */
  lemma UpdateReplyLists(ids: seq<string>)
    requires ids != [] && PlainId(ids[|ids| - 1])
    ensures UpdateReply(ids) == ReplyPrefix + (IdsHeading + Join(ids, ", "))
  {
    TrimmedList(IdsHeading, ids);
  }

  /** Trimming the accumulated text after any heading leaves the heading and the ids joined with
      ", ": only the final separator goes, because the last id ends outside the cut set. */
  lemma TrimmedList(heading: string, ids: seq<string>)
    requires ids != [] && PlainId(ids[|ids| - 1])
    ensures TrimRight(heading + IdList(ids), IdSeparators) == heading + Join(ids, ", ")
  {
    IdListJoin(ids);
    JoinEndsWithLast(ids);
    var joined := Join(ids, ", ");
    var head := heading + joined;
    assert head[|head| - 1] == joined[|joined| - 1];
    assert heading + IdList(ids) == head + ", ";
    TrimRightDropsTail(head, ", ", IdSeparators);
  }

  /** With no orders received the reply is the bare heading, its trailing space trimmed:
      "Orders processed Updated Order IDs :". */
  lemma UpdateReplyNoOrders()
    ensures UpdateReply([]) == ReplyPrefix + "Updated Order IDs :"
  {
    var head := "Updated Order IDs :";
    assert IdsHeading == head + " ";
    assert IdsHeading + IdList([]) == head + " ";
    TrimRightDropsTail(head, " ", IdSeparators);
  }

  /** Lists the keys of a map in some order, the way ranging over a map does. */
  method EnumerateKeys<V>(m: map<string, V>) returns (keys: seq<string>)
    ensures Enumerates(keys, m)
  {
    keys := [];
    var rest := m.Keys;
    while rest != {}
      invariant rest <= m.Keys
      invariant Distinct(keys)
      invariant forall k :: k in keys ==> k in m && k !in rest
      invariant forall k :: k in m && k !in rest ==> k in keys
      decreases rest
    {
      var k :| k in rest;
      keys := keys + [k];
      rest := rest - {k};
    }
  }

  /** Sends the shipments of `batch` one by one after the `sent` ones; the send that would
      exceed `sendLimit` fails and stops the batch. */
  method SendAll(batch: seq<CombinedShipment>, sent: seq<CombinedShipment>, sendLimit: nat)
    returns (out: seq<CombinedShipment>, ok: bool)
    requires |sent| <= sendLimit
    ensures ok <==> |sent| + |batch| <= sendLimit
    ensures out == if ok then sent + batch else (sent + batch)[..sendLimit]
  {
    out := sent;
    for j := 0 to |batch|
      invariant out == sent + batch[..j] && |out| <= sendLimit
    {
      if |out| == sendLimit {
        assert out == (sent + batch)[..sendLimit];
        return out, false;
      }
      out := out + [batch[j]];
    }
    assert batch[..|batch|] == batch;
    ok := true;
  }

  /** Adds one order to the accumulation map: appended to the shipment held for its
      destination, or a new shipment named after the destination. */
  method AcceptOrder(combinedShipmentMap: map<string, CombinedShipment>, order: Order)
    returns (updated: map<string, CombinedShipment>)
    ensures updated == Accept(combinedShipmentMap, order)
    ensures order.destination in updated
    ensures forall d :: d in combinedShipmentMap && d != order.destination ==> d in updated && updated[d] == combinedShipmentMap[d]
  {
    var destination := order.destination;
    if destination in combinedShipmentMap {
      var shipment := combinedShipmentMap[destination];
      shipment := shipment.(orders := shipment.orders + [order]);
      updated := combinedShipmentMap[destination := shipment];
    } else {
      var comShip := CombinedShipment("cmb - " + order.destination, "Processed!", [order]);
      updated := combinedShipmentMap[destination := comShip];
    }
  }

  /** Sends every shipment of the accumulation map, in map iteration order `keys`, after the
      `sent` ones; stops at the first failed send. */
  method FlushShipments(combinedShipmentMap: map<string, CombinedShipment>, sent: seq<CombinedShipment>,
                        sendLimit: nat, ghost window: seq<Order>)
    returns (out: seq<CombinedShipment>, ok: bool, keys: seq<string>)
    requires combinedShipmentMap == Group(window)
    requires |sent| <= sendLimit && forall s :: s in sent ==> WellFormed(s)
    ensures Enumerates(keys, combinedShipmentMap)
    ensures |ShipmentsAt(combinedShipmentMap, keys)| == |combinedShipmentMap|
    ensures ok <==> |sent| + |combinedShipmentMap| <= sendLimit
    ensures out == if ok then sent + ShipmentsAt(combinedShipmentMap, keys)
                   else (sent + ShipmentsAt(combinedShipmentMap, keys))[..sendLimit]
    ensures |out| <= sendLimit && forall s :: s in out ==> WellFormed(s)
  {
    keys := EnumerateKeys(combinedShipmentMap);
    FlushConserves(window, keys);
    FlushWellFormed(window, keys);
    out, ok := SendAll(ShipmentsAt(combinedShipmentMap, keys), sent, sendLimit);
  }

  class OrderManagement {
    /** The shared order store, keyed by order identifier. */
    var orderMap: OrderMap

    ghost predicate Valid()
      reads this
    {
      Keyed(orderMap)
    }

    constructor ()
      ensures Valid() && orderMap == map[]
    {
      orderMap := map[];
    }

    /** Stores the order under its identifier, replacing any earlier record, and confirms. */
    method AddOrder(order: Order) returns (reply: string)
      requires Valid()
      modifies this
      ensures Valid()
      ensures orderMap == Put(old(orderMap), order)
      ensures reply == "Order Added: " + order.id
    {
      orderMap := orderMap[order.id := order];
      reply := "Order Added: " + order.id;
    }

    /** Returns the stored order, or NotFound when nothing is stored under `id`; never a
        default record. */
    method GetOrder(id: string) returns (r: Result<Order>)
      requires Valid()
      ensures r.Ok? <==> Get(orderMap, id).Some?
      ensures r.Ok? ==> Get(orderMap, id) == Some(r.value) && r.value.id == id
      ensures r.Err? ==> r.failure == NotFound(id)
    {
      if id in orderMap {
        return Ok(orderMap[id]);
      }
      return Err(NotFound(id));
    }

    /** Streams every stored order that has an item containing `query`, each once (the scan of
        an order's items stops at its first match), in store iteration order. `hits` lists the
        keys of the orders sent. */
    method SearchOrders(query: string, sendLimit: nat)
      returns (sent: seq<Order>, r: Outcome, ghost hits: seq<string>)
      ensures r == Done || r == Failed(SendFault)
      ensures |sent| <= sendLimit
      ensures |sent| == |hits| && Distinct(hits)
      ensures forall i :: 0 <= i < |hits| ==>
        hits[i] in orderMap && sent[i] == orderMap[hits[i]] && Matches(sent[i], query)
      ensures r == Done ==> forall k :: k in orderMap && Matches(orderMap[k], query) ==> k in hits
      ensures r.Failed? ==>
        |sent| == sendLimit && exists k :: k in orderMap && Matches(orderMap[k], query) && k !in hits
    {
      var keys := EnumerateKeys(orderMap);
      sent, r, hits := [], Done, [];
      var i := 0;
      while i < |keys|
        invariant 0 <= i <= |keys|
        invariant |sent| == |hits| <= sendLimit && Distinct(hits)
        invariant forall j :: 0 <= j < |hits| ==>
          hits[j] in keys[..i] && hits[j] in orderMap && sent[j] == orderMap[hits[j]] && Matches(sent[j], query)
        invariant forall j :: 0 <= j < i && Matches(orderMap[keys[j]], query) ==> keys[j] in hits
      {
        var key := keys[i];
        var order := orderMap[key];
        ghost var sent0, hits0 := sent, hits;
        var j := 0;
        while j < |order.items|
          invariant 0 <= j <= |order.items|
          invariant sent == sent0 && hits == hits0
          invariant forall jj :: 0 <= jj < j ==> !Contains(order.items[jj], query)
        {
          if Contains(order.items[j], query) {
            if |sent| == sendLimit {
              assert key !in keys[..i];
              return sent, Failed(SendFault), hits;
            }
            sent, hits := sent + [order], hits + [key];
            break;
          }
          j := j + 1;
        }
        assert keys[..i + 1] == keys[..i] + [key];
        i := i + 1;
      }
    }

    /** Applies the received orders as full replacements, in order, and on end of input replies
        with the list of their identifiers. On a broken stream the error is returned and no
        reply is sent; the updates already applied stay. */
    method UpdateOrders(received: seq<Order>, end: StreamEnd) returns (r: Result<string>)
      requires Valid()
      modifies this
      ensures Valid()
      ensures orderMap == PutAll(old(orderMap), received)
      ensures r == match end
                   case Eof => Ok(UpdateReply(IdsOf(received)))
                   case Broken(e) => Err(RecvFault(e))
    {
      var ordersStr := IdsHeading;
      var i := 0;
      while true
        invariant 0 <= i <= |received|
        invariant Valid()
        invariant orderMap == PutAll(old(orderMap), received[..i])
        invariant ordersStr == IdsHeading + IdList(IdsOf(received[..i]))
        decreases |received| - i
      {
        if i == |received| {
          assert received[..i] == received;
          match end
          case Eof =>
            return Ok(ReplyPrefix + TrimRight(ordersStr, IdSeparators));
          case Broken(e) =>
            return Err(RecvFault(e));
        }
        var order := received[i];
        PutAllSnoc(old(orderMap), received[..i], order);
        assert received[..i + 1] == received[..i] + [order];
        IdListStep(received, i);
        orderMap := orderMap[order.id := order];
        ordersStr := ordersStr + order.id + ", ";
        i := i + 1;
      }
    }
  
    /** The bidirectional batching session. Each received id is resolved against the store (an
        unknown id yields the zero-value order, bound for destination "") and appended to the
        combined shipment held for its destination. A counter decides when every held shipment
        is sent and the map emptied; at end of input whatever is held is sent and the session
        ends; when the inbound stream breaks, the session ends with that error and the held
        shipments are dropped; when a send fails, the session ends there.

        The ghost results explain what was sent: the session read the first `consumed` ids,
        `windows` cuts their orders where the counter fired, and flush b sent the shipments of
        window b in the order `flushKeys[b]` lists their destinations. */
    method ProcessOrders(ids: seq<string>, end: StreamEnd, sendLimit: nat)
      returns (sent: seq<CombinedShipment>, r: Outcome,
               ghost consumed: nat, ghost windows: seq<seq<Order>>, ghost flushKeys: seq<seq<string>>)
      ensures consumed <= |ids|
      ensures windows == Windows(Resolved(orderMap, ids[..consumed]))
      ensures |flushKeys| <= |windows|
      ensures forall b :: 0 <= b < |flushKeys| ==> Enumerates(flushKeys[b], Group(windows[b]))
      ensures r == Done || r == Failed(SendFault) || (end.Broken? && r == Failed(RecvFault(end.reason)))
      ensures r == Done ==>
        end == Eof && consumed == |ids| && |flushKeys| == |windows| && sent == Emitted(windows, flushKeys)
      ensures r.Failed? && r.failure.RecvFault? ==>
        consumed == |ids| && |flushKeys| == |windows| - 1 && sent == Emitted(windows, flushKeys)
      ensures r != Failed(SendFault) ==> |sent| <= sendLimit
      ensures r == Failed(SendFault) ==>
        ((|flushKeys| == |windows| - 1 && windows[|windows| - 1] == []) ||
         (end == Eof && consumed == |ids| && |flushKeys| == |windows|)) &&
        |flushKeys| > 0 && |Emitted(windows, flushKeys[..|flushKeys| - 1])| <= sendLimit &&
        |Emitted(windows, flushKeys)| > sendLimit && sent == Emitted(windows, flushKeys)[..sendLimit]
      ensures forall s :: s in sent ==> WellFormed(s)
      ensures r == Done ==> multiset(OrdersOf(sent)) == multiset(Resolved(orderMap, ids))
    {
      var batchMarker := 1;
      var combinedShipmentMap: map<string, CombinedShipment> := map[];
      sent, flushKeys := [], [];
      var i := 0;
      ghost var ws := Windows([]);
      AccumulatingInitially();
      while i < |ids|
        invariant 0 <= i <= |ids|
        invariant ws == Windows(Resolved(orderMap, ids[..i]))
        invariant Accumulating(ws, combinedShipmentMap, batchMarker, flushKeys, sent)
        invariant |sent| <= sendLimit
        invariant forall s :: s in sent ==> WellFormed(s)
      {
        var orderId := ids[i];
        ResolvedSnoc(orderMap, ids, i);
        ghost var before := Resolved(orderMap, ids[..i]);
        i := i + 1;

        var order := Resolve(orderMap, orderId);
        ghost var pending := combinedShipmentMap;
        combinedShipmentMap := AcceptOrder(combinedShipmentMap, order);

        if batchMarker == OrderBatchSize {
          AcceptCompletesWindow(before, order, pending, batchMarker, flushKeys, sent);
          ws := Windows(before + [order]);
          var ok, keys;
          ghost var sent0 := sent;
          ghost var keys0 := flushKeys;
          sent, ok, keys := FlushShipments(combinedShipmentMap, sent, sendLimit, ws[|flushKeys|]);
          FlushRestarts(ws, flushKeys, keys, sent0);
          flushKeys := flushKeys + [keys];
          assert flushKeys[..|flushKeys| - 1] == keys0;
          if !ok {
            return sent, Failed(SendFault), i, ws, flushKeys;
          }
          batchMarker := 0;
          combinedShipmentMap := map[];
        } else {
          AcceptWithoutFlush(before, order, pending, batchMarker, flushKeys, sent);
          ws := Windows(before + [order]);
          batchMarker := batchMarker + 1;
        }
      }

      // The inbound half is closed or broken.
      assert ids[..i] == ids;
      consumed, windows := i, ws;
      match end
      case Eof =>
        var ok, keys;
        ghost var sent0 := sent;
        sent, ok, keys := FlushShipments(combinedShipmentMap, sent, sendLimit, ws[|ws| - 1]);
        FinalFlush(ws, combinedShipmentMap, batchMarker, flushKeys, sent0, keys);
        ghost var keys0 := flushKeys;
        flushKeys := flushKeys + [keys];
        assert flushKeys[..|flushKeys| - 1] == keys0;
        if !ok {
          return sent, Failed(SendFault), consumed, windows, flushKeys;
        }
        WindowsShape(Resolved(orderMap, ids));
        r := Done;
      case Broken(e) =>
        r := Failed(RecvFault(e));
    }
}
}
