/** The sample orders the server seeds at start-up, and the session the example client runs
    against them: ids 102, 103, 104, then 101 (which is not stored), then end of input. */
module Samples {
  import opened Seqs
  import opened Orders
  import opened Store
  import opened Batching
  import opened Strings
  import opened Server

  const O102 := Order("102", ["Google X1", "Mac X1"], "shenzhen", 180001)
  const O103 := Order("103", ["Apple X1"], "changsha", 40099)
  const O104 := Order("104", ["Google X2", "XXXXX555"], "shenzhen", 40071)
  const O105 := Order("105", ["Amazon X1"], "shenzhen", 3012)
  const O106 := Order("106", ["Amazon X2", "Apple X5"], "shenzhen", 30088)

  /** The seeded store (prices in hundredths). */
  function SampleStore(): (m: OrderMap)
    ensures Keyed(m) && |m| == 5
  {
    map["102" := O102, "103" := O103, "104" := O104, "105" := O105, "106" := O106]
  }

  /** The client's session cuts into one full window of three orders and a remainder holding
      the zero-value order that the unknown id 101 resolves to. */
  lemma ClientSessionWindows()
    ensures Windows(Resolved(SampleStore(), ["102", "103", "104", "101"])) == [[O102, O103, O104], [ZeroOrder]]
  {
    var os := Resolved(SampleStore(), ["102", "103", "104", "101"]);
    assert os == [O102, O103, O104, ZeroOrder];
    assert os[..3] == [O102, O103, O104] && os[3..] == [ZeroOrder];
    assert Split(os[3..], 1) == [[ZeroOrder]];
  }

  /** The automatic flush after 102, 103, 104 sends two shipments: 102 and 104 (in that order)
      for shenzhen, and 103 for changsha. */
  lemma ClientFirstFlush()
    ensures Group([O102, O103, O104]) == map[
      "shenzhen" := CombinedShipment("cmb - shenzhen", "Processed!", [O102, O104]),
      "changsha" := CombinedShipment("cmb - changsha", "Processed!", [O103])]
  {
    assert [O102, O103, O104][..2] == [O102, O103];
    assert [O102, O103][..1] == [O102];
    assert [O102][..0] == [];
    assert ShipmentId("shenzhen") == "cmb - shenzhen";
    assert ShipmentId("changsha") == "cmb - changsha";
    var g1 := map["shenzhen" := CombinedShipment("cmb - shenzhen", "Processed!", [O102])];
    assert Group([O102]) == Accept(map[], O102) == g1;
    var g2 := g1["changsha" := CombinedShipment("cmb - changsha", "Processed!", [O103])];
    assert Group([O102, O103]) == Accept(g1, O103) == g2;
    assert Group([O102, O103, O104]) == Accept(g2, O104);
    assert [O102] + [O104] == [O102, O104];
    assert Accept(g2, O104) == g2["shenzhen" := CombinedShipment("cmb - shenzhen", "Processed!", [O102, O104])];
  }

  /** The final flush sends one shipment named "cmb - " holding the zero-value order. */
  lemma ClientFinalFlush()
    ensures Group([ZeroOrder]) == map["" := CombinedShipment("cmb - ", "Processed!", [ZeroOrder])]
  {
    assert [ZeroOrder][..0] == [];
    assert ShipmentId("") == "cmb - ";
    assert Group([ZeroOrder]) == Accept(map[], ZeroOrder);
  }

  /** Searching the seeded store for "Google" matches orders 102 and 104 ... */
  lemma SearchGoogleMatches()
    ensures Matches(O102, "Google") && Matches(O104, "Google")
  {
    assert OccursAt("Google X1", "Google", 0);
    assert OccursAt("Google X2", "Google", 0);
    assert "Google X1" in O102.items && Contains("Google X1", "Google");
    assert "Google X2" in O104.items && Contains("Google X2", "Google");
  }

  /** ... and none of the others, whose items hold no capital G. */
  lemma SearchGoogleSkips()
    ensures !Matches(O103, "Google") && !Matches(O105, "Google") && !Matches(O106, "Google")
  {
    NoItemHasFirstChar(O103, "Google");
    NoItemHasFirstChar(O105, "Google");
    assert O106.items == ["Amazon X2", "Apple X5"];
    NoItemHasFirstChar(O106, "Google");
  }

  /** An order none of whose items holds the query's first character does not match. */
  lemma NoItemHasFirstChar(o: Order, query: string)
    requires query != [] && forall i :: 0 <= i < |o.items| ==> query[0] !in o.items[i]
    ensures !Matches(o, query)
  {
    forall i | 0 <= i < |o.items| ensures !Contains(o.items[i], query) {
      MissingFirstChar(o.items[i], query);
    }
  }
}
