/** What the exposure gauge's answer to the hot thread is worth. */
module Gate {

  import opened Orders
  import opened Engine
  import opened ShadowRuns
  import opened ShadowTheorems
  import opened Requests
  import opened Tracks

  // Prices are cents of a dollar contract, sizes are not negative.
  predicate SaneRequests(evs: seq<Event>) {
    forall i | 0 <= i < |evs| :: evs[i].PlaceOrder? ==> 0 <= evs[i].price <= 100 && evs[i].count >= 0
  }

  // What the live orders of one market can lose.
  function MarketRisk(slots: seq<OrderRec>, m: nat): int {
    if slots == [] then 0
    else
      var r := slots[0];
      MarketRisk(slots[1..], m) + if IsLive(r.state) && r.market == m then r.Remaining() * (if r.buyYes then r.price else 100 - r.price) else 0
  }

  ghost predicate Sound(slots: seq<OrderRec>) {
    forall i | 0 <= i < |slots| :: IsLive(slots[i].state) ==> 0 <= slots[i].price <= 100 && slots[i].Remaining() >= 0
  }

  lemma {:induction false} SlotCovers(slots: seq<OrderRec>, m: nat)
    requires Sound(slots)
    ensures MarketRisk(slots, m) <= Sum(slots, RiskAt(m % MARKET_SLOTS))
  {
    if slots != [] {
      var r := slots[0];
      SlotCovers(slots[1..], m);
      if IsLive(r.state) {
        assert r.Remaining() * r.price >= 0 && r.Remaining() * (100 - r.price) >= 0;
      }
    }
  }

  // No live order of another market shares the gauge's slot of market m.
  predicate Unshared(slots: seq<OrderRec>, m: nat) {
    forall i | 0 <= i < |slots| :: IsLive(slots[i].state) && slots[i].market % 4096 == m % 4096 ==> slots[i].market == m
  }

  lemma {:induction false} SlotExact(slots: seq<OrderRec>, m: nat)
    requires Unshared(slots, m)
    ensures MarketRisk(slots, m) == Sum(slots, RiskAt(m % MARKET_SLOTS))
  {
    if slots != [] {
      SlotExact(slots[1..], m);
      assert IsLive(slots[0].state) && slots[0].market % 4096 == m % 4096 ==> slots[0].market == m;
    }
  }

  lemma {:induction false} RequestIn(evs: seq<Event>, c: nat)
    requires RequestOf(evs, c).Some?
    ensures RequestOf(evs, c).value in evs
    decreases |evs|
  {
    var before, ev := evs[..|evs| - 1], evs[|evs| - 1];
    if RequestOf(evs, c) == RequestOf(before, c) { RequestIn(before, c); }
  }

  lemma SlotSound(cfg: Config, n: nat, evs: seq<Event>, i: nat)
    requires SaneRequests(evs) && SaneTape(evs)
    requires i < |Run(cfg, n, evs).reg.slots| && IsLive(Run(cfg, n, evs).reg.slots[i].state)
    ensures var r := Run(cfg, n, evs).reg.slots[i]; 0 <= r.price <= 100 && r.Remaining() >= 0
  {
    var r := Run(cfg, n, evs).reg.slots[i];
    SlotLife(cfg, n, evs, i);
    LivesAsAsked(cfg, evs, Room(cfg, n, evs));
    RunsBounded(cfg, evs, Room(cfg, n, evs));
    RequestIn(evs, r.cid);
  }

  /** With prices in cents and no negative sizes: when the gauge says a market is within its
      limit and the engine within its own, the live orders of that market, and all live
      orders, can lose no more than that; and it says so exactly then, unless live orders of
      a market with the same remainder by 4096 share the slot. */
  lemma WithinMeans(cfg: Config, n: nat, evs: seq<Event>, m: nat, maxMarket: int, maxTotal: int)
    requires SaneRequests(evs) && SaneTape(evs)
    ensures var e := Run(cfg, n, evs);
      && e.reg.gauge.Sized()
      && (e.reg.gauge.Within(m, maxMarket, maxTotal) ==> MarketRisk(e.reg.slots, m) <= maxMarket && Sum(e.reg.slots, TotalRisk) <= maxTotal)
      && (Unshared(e.reg.slots, m) ==>
            (e.reg.gauge.Within(m, maxMarket, maxTotal) <==> MarketRisk(e.reg.slots, m) <= maxMarket && Sum(e.reg.slots, TotalRisk) <= maxTotal))
  {
    TablesExact(cfg, n, evs);
    var slots := Run(cfg, n, evs).reg.slots;
    forall i | 0 <= i < |slots| && IsLive(slots[i].state) ensures 0 <= slots[i].price <= 100 && slots[i].Remaining() >= 0 {
      SlotSound(cfg, n, evs, i);
    }
    SlotCovers(slots, m);
    if Unshared(slots, m) { SlotExact(slots, m); }
  }
}
