/**
 The order registry of include/trading/shadow/order_registry.hpp: the life cycle of an
 order, the preallocated slot table with its free list and order-id index, and the
 exposure gauge the hot thread reads.
 */
module Orders {

  datatype OrdState = Free | PendingNew | Open | PendingCancel | Filled | Canceled | Expired

  predicate LegalTransition(from: OrdState, to: OrdState) {
    match from
    case Free => to == PendingNew
    case PendingNew => to == Open
    case Open => to == PendingCancel || to == Filled || to == Expired
    case PendingCancel => to == Canceled || to == Filled
    case _ => false
  }

  predicate IsTerminal(s: OrdState) { s == Filled || s == Canceled || s == Expired }

  predicate IsLive(s: OrdState) { s == Open || s == PendingCancel }

  datatype OrderRec = OrderRec(
    cid: nat, market: nat, price: int, count: int, filled: int, buyYes: bool, state: OrdState,
    queueAhead: int, placeTs: nat, activeTs: nat, cancelEff: nat)
  {
    function Remaining(): int { count - filled }
  }

  const EMPTY: OrderRec := OrderRec(0, 0, 0, 0, 0, false, Free, -1, 0, 0, 0)

  // Worst-case loss: buying YES at p risks p per contract, selling risks 100 - p.
  function RiskCents(count: int, price: int, buyYes: bool): int {
    count * (if buyYes then price else 100 - price)
  }

  lemma RiskAdds(a: int, b: int, price: int, buyYes: bool)
    ensures RiskCents(a + b, price, buyYes) == RiskCents(a, price, buyYes) + RiskCents(b, price, buyYes)
    ensures RiskCents(-a, price, buyYes) == -RiskCents(a, price, buyYes)
    ensures RiskCents(0, price, buyYes) == 0
  {
  }

  const MARKET_SLOTS: nat := 4096

  datatype Gauge = Gauge(atRisk: seq<int>, contracts: seq<int>, total: int)
  {
    predicate Sized() { |atRisk| == MARKET_SLOTS && |contracts| == MARKET_SLOTS }

    function Shift(market: nat, risk: int, count: int): (g: Gauge)
      requires Sized()
      ensures g.Sized()
    {
      var k := market % MARKET_SLOTS;
      this.(atRisk := atRisk[k := atRisk[k] + risk], contracts := contracts[k := contracts[k] + count],
            total := total + risk)
    }

    function OnOpen(market: nat, count: int, price: int, buyYes: bool): (g: Gauge)
      requires Sized()
      ensures g.Sized()
    {
      Shift(market, RiskCents(count, price, buyYes), count)
    }

    function OnClose(market: nat, count: int, price: int, buyYes: bool): (g: Gauge)
      requires Sized()
      ensures g.Sized()
    {
      Shift(market, -RiskCents(count, price, buyYes), -count)
    }

    // The hot thread's question before it quotes.
    predicate Within(market: nat, maxMarket: int, maxTotal: int)
      requires Sized()
    {
      atRisk[market % MARKET_SLOTS] <= maxMarket && total <= maxTotal
    }
  }

  datatype Registry = Registry(
    slots: seq<OrderRec>, free: seq<nat>, byCid: map<nat, nat>, gauge: Gauge, illegal: nat)
  {
    function Set(i: nat, r: OrderRec): Registry
      requires i < |slots|
    {
      this.(slots := slots[i := r])
    }

    function Transition(i: nat, to: OrdState): (reg: Registry)
      requires i < |slots| && gauge.Sized()
      ensures |reg.slots| == |slots| && reg.gauge.Sized()
    {
      var r := slots[i];
      if !LegalTransition(r.state, to) then this.(illegal := illegal + 1)
      else
        Set(i, r.(state := to)).(gauge :=
          if to == Open then gauge.OnOpen(r.market, r.Remaining(), r.price, r.buyYes)
          else if IsTerminal(to) then gauge.OnClose(r.market, r.Remaining(), r.price, r.buyYes)
          else gauge)
    }

    // The slot it takes from the back of the free list. The caller has checked that
    // one is left; the source answers -1 otherwise. An id that is already in the index
    // keeps its old entry.
    function Place(cid: nat, market: nat, price: int, count: int, buyYes: bool, ts: nat, active: nat): (reg: Registry)
      requires |free| > 0 && free[|free| - 1] < |slots| && gauge.Sized()
      ensures |reg.slots| == |slots| && reg.gauge.Sized()
    {
      var i := free[|free| - 1];
      var blank := EMPTY.(cid := cid, market := market, price := price, count := count,
                          buyYes := buyYes, placeTs := ts, activeTs := active);
      var reg := this.(free := free[..|free| - 1]).Set(i, blank).Transition(i, PendingNew);
      if cid in byCid then reg else reg.(byCid := reg.byCid[cid := i])
    }

    function ApplyFill(i: nat, qty: int): (reg: Registry)
      requires i < |slots| && gauge.Sized()
      ensures |reg.slots| == |slots| && reg.gauge.Sized()
    {
      var r := slots[i].(filled := slots[i].filled + qty);
      Set(i, if r.Remaining() == 0 then r.(state := Filled) else r)
        .(gauge := gauge.OnClose(r.market, qty, r.price, r.buyYes))
    }

    function Release(i: nat): (reg: Registry)
      requires i < |slots|
      ensures |reg.slots| == |slots| && reg.gauge == gauge
    {
      Set(i, slots[i].(state := Free)).(byCid := byCid - {slots[i].cid}, free := free + [i])
    }
  }

  // ---------------------------------------------------------------- sums over the table

  // What a table entry contributes to a quantity of interest.
  datatype Quantity = TotalRisk | RiskAt(k: nat) | ContractsAt(k: nat) | InState(st: OrdState)

  function Weight(r: OrderRec, q: Quantity): int {
    match q
    case TotalRisk => if IsLive(r.state) then RiskCents(r.Remaining(), r.price, r.buyYes) else 0
    case RiskAt(k) =>
      if IsLive(r.state) && r.market % MARKET_SLOTS == k then RiskCents(r.Remaining(), r.price, r.buyYes) else 0
    case ContractsAt(k) => if IsLive(r.state) && r.market % MARKET_SLOTS == k then r.Remaining() else 0
    case InState(st) => if r.state == st then 1 else 0
  }

  function Sum(slots: seq<OrderRec>, q: Quantity): int {
    if slots == [] then 0 else Weight(slots[0], q) + Sum(slots[1..], q)
  }

  lemma {:induction false} SumUpdate(slots: seq<OrderRec>, i: nat, r: OrderRec, q: Quantity)
    requires i < |slots|
    ensures Sum(slots[i := r], q) == Sum(slots, q) - Weight(slots[i], q) + Weight(r, q)
  {
    if i == 0 {
      assert slots[0 := r][1..] == slots[1..];
    } else {
      SumUpdate(slots[1..], i - 1, r, q);
      assert slots[i := r][1..] == slots[1..][i - 1 := r];
    }
  }

  // ---------------------------------------------------------------- the gauge

  ghost predicate GaugeExact(slots: seq<OrderRec>, g: Gauge) {
    && g.Sized()
    && g.total == Sum(slots, TotalRisk)
    && (forall k | 0 <= k < MARKET_SLOTS :: g.atRisk[k] == Sum(slots, RiskAt(k)))
    && (forall k | 0 <= k < MARKET_SLOTS :: g.contracts[k] == Sum(slots, ContractsAt(k)))
  }

  // Changing one entry keeps the gauge exact when the gauge moves by the change of
  // that entry's exposure.
  lemma GaugeMoves(slots: seq<OrderRec>, g: Gauge, i: nat, r: OrderRec, g': Gauge)
    requires i < |slots| && GaugeExact(slots, g)
    requires IsLive(slots[i].state) && IsLive(r.state) ==> r.market == slots[i].market
    requires var m := if IsLive(r.state) then r.market else slots[i].market;
      var dr, dc := Weight(r, TotalRisk) - Weight(slots[i], TotalRisk),
                    (if IsLive(r.state) then r.Remaining() else 0) - (if IsLive(slots[i].state) then slots[i].Remaining() else 0);
      g' == g.Shift(m, dr, dc)
    ensures GaugeExact(slots[i := r], g')
  {
    SumUpdate(slots, i, r, TotalRisk);
    forall k | 0 <= k < MARKET_SLOTS
      ensures g'.atRisk[k] == Sum(slots[i := r], RiskAt(k))
      ensures g'.contracts[k] == Sum(slots[i := r], ContractsAt(k))
    {
      SumUpdate(slots, i, r, RiskAt(k));
      SumUpdate(slots, i, r, ContractsAt(k));
    }
  }

  lemma TransitionGauge(reg: Registry, i: nat, to: OrdState)
    requires i < |reg.slots| && GaugeExact(reg.slots, reg.gauge) && LegalTransition(reg.slots[i].state, to)
    ensures GaugeExact(reg.Transition(i, to).slots, reg.Transition(i, to).gauge)
  {
    GaugeMoves(reg.slots, reg.gauge, i, reg.slots[i].(state := to), reg.Transition(i, to).gauge);
  }

  lemma FillGauge(reg: Registry, i: nat, qty: int)
    requires i < |reg.slots| && GaugeExact(reg.slots, reg.gauge) && IsLive(reg.slots[i].state)
    ensures GaugeExact(reg.ApplyFill(i, qty).slots, reg.ApplyFill(i, qty).gauge)
  {
    var r := reg.slots[i];
    RiskAdds(r.Remaining(), -qty, r.price, r.buyYes);
    RiskAdds(qty, 0, r.price, r.buyYes);
    GaugeMoves(reg.slots, reg.gauge, i, reg.ApplyFill(i, qty).slots[i], reg.ApplyFill(i, qty).gauge);
  }

  lemma IdleShift(g: Gauge, market: nat)
    requires g.Sized()
    ensures g.Shift(market, 0, 0) == g
  {
  }

  // Entries that carry no exposure before and after do not move the gauge.
  lemma IdleGauge(slots: seq<OrderRec>, g: Gauge, i: nat, r: OrderRec)
    requires i < |slots| && GaugeExact(slots, g) && !IsLive(slots[i].state) && !IsLive(r.state)
    ensures GaugeExact(slots[i := r], g)
  {
    IdleShift(g, if IsLive(r.state) then r.market else slots[i].market);
    GaugeMoves(slots, g, i, r, g);
  }

  // Nor do changes to fields the exposure does not depend on.
  lemma SameExposure(slots: seq<OrderRec>, g: Gauge, i: nat, r: OrderRec)
    requires i < |slots| && GaugeExact(slots, g)
    requires IsLive(r.state) == IsLive(slots[i].state)
    requires r.market == slots[i].market && r.price == slots[i].price && r.buyYes == slots[i].buyYes
    requires r.Remaining() == slots[i].Remaining()
    ensures GaugeExact(slots[i := r], g)
  {
    IdleShift(g, r.market);
    GaugeMoves(slots, g, i, r, g);
  }
}
