/**
 The shadow engine of include/trading/shadow/engine.hpp and the fill simulator of
 include/trading/shadow/fill_sim.hpp, as functions on the engine's state. Each source
 loop is a tail-recursive function; class ShadowEngine has the loops themselves.
 */
module Engine {

  import opened Orders
  import opened Lists
  import opened Ledger

  datatype Track = Strict | Queue | Optimistic

  datatype Config = Config(track: Track, placeLatency: nat, cancelLatency: nat)

  datatype Print = Print(market: nat, price: int, size: int, takerYes: bool, ts: nat)

  datatype Pending = Pending(idx: nat, displayed: int)

  // log is a history: every fill handed to the ledger so far.
  datatype Engine = Engine(
    cfg: Config,
    reg: Registry,
    open: seq<nat>,
    books: seq<MarketBook>,
    cidSeq: nat,
    droppedFull: nat,
    ineligible: nat,
    pending: seq<Pending>,
    canceling: seq<nat>,
    byMarket: map<nat, seq<nat>>,
    scratch: seq<Fill>,
    log: seq<Fill>)

  // ---------------------------------------------------------------- one order, one print

  predicate Crosses(r: OrderRec, q: int, takerYes: bool) {
    if r.buyYes then !takerYes && q <= r.price else takerYes && q >= r.price
  }

  predicate AtLevelOnly(r: OrderRec, q: int) { q == r.price }

  // The print is for this order's market, crosses it, and falls in its active window.
  predicate Reaches(r: OrderRec, p: Print) {
    && r.market == p.market && p.ts >= r.activeTs && Crosses(r, p.price, p.takerYes)
    && !(r.cancelEff != 0 && p.ts >= r.cancelEff)
  }

  function Min(a: int, b: int): int { if a < b then a else b }

  // How much of the queue ahead this print consumes.
  function Drain(track: Track, r: OrderRec, p: Print): int {
    if track == Queue && AtLevelOnly(r, p.price) then Min(p.size, r.queueAhead) else 0
  }

  function Available(track: Track, r: OrderRec, p: Print): int {
    if track == Queue && AtLevelOnly(r, p.price) then p.size - Drain(track, r, p)
    else if track == Strict && AtLevelOnly(r, p.price) then 0
    else p.size
  }

  // The quantity this print fills, 0 or less meaning none.
  function FillQty(track: Track, r: OrderRec, p: Print): int {
    if Available(track, r, p) > 0 && (track != Queue || r.queueAhead - Drain(track, r, p) == 0)
    then Min(Available(track, r, p), r.Remaining()) else 0
  }

  // ---------------------------------------------------------------- well-formed indices

  ghost predicate Within(s: seq<nat>, n: nat) { forall i | 0 <= i < |s| :: s[i] < n }

  function Listed(byMarket: map<nat, seq<nat>>, m: nat): seq<nat> {
    if m in byMarket then byMarket[m] else []
  }

  // Every index the engine keeps points into the slot table.
  ghost predicate Indexed(e: Engine) {
    var n := |e.reg.slots|;
    && e.reg.gauge.Sized()
    && Within(e.reg.free, n) && Within(e.open, n) && Within(e.canceling, n)
    && (forall k | 0 <= k < |e.pending| :: e.pending[k].idx < n)
    && (forall m | m in e.byMarket :: Within(e.byMarket[m], n))
    && (forall c | c in e.reg.byCid :: e.reg.byCid[c] < n)
    && (forall k | 0 <= k < |e.scratch| :: e.scratch[k].idx < n && e.scratch[k].market < |e.books|)
    && (forall i | 0 <= i < n :: e.reg.slots[i].state != Free ==> e.reg.slots[i].market < |e.books|)
  }

  // ---------------------------------------------------------------- placing and canceling

  function PlaceAccepted(e: Engine, market: nat, price: int, count: int, buyYes: bool, ts: nat, displayed: int): (e': Engine)
    requires Indexed(e) && |e.reg.free| > 0 && market < |e.books|
    ensures Indexed(e')
    ensures e'.ineligible >= e.ineligible && |e'.reg.slots| == |e.reg.slots|
  {
    var i := e.reg.free[|e.reg.free| - 1];
    var cid := e.cidSeq + 1;
    e.(cidSeq := cid,
       reg := e.reg.Place(cid, market, price, count, buyYes, ts, ts + e.cfg.placeLatency),
       pending := e.pending + [Pending(i, displayed)],
       byMarket := e.byMarket[market := Listed(e.byMarket, market) + [i]])
  }

  function Place(e: Engine, market: nat, price: int, count: int, buyYes: bool, ts: nat, displayed: int): (e': Engine)
    requires Indexed(e) && market < |e.books|
    ensures Indexed(e')
    ensures e'.ineligible >= e.ineligible && |e'.reg.slots| == |e.reg.slots|
  {
    if |e.reg.free| == 0 then e.(cidSeq := e.cidSeq + 1, droppedFull := e.droppedFull + 1)
    else PlaceAccepted(e, market, price, count, buyYes, ts, displayed)
  }

  function Cancel(e: Engine, cid: nat, ts: nat): (e': Engine)
    requires Indexed(e)
    ensures Indexed(e')
    ensures e'.ineligible >= e.ineligible && |e'.reg.slots| == |e.reg.slots| && e'.cidSeq == e.cidSeq && e'.droppedFull == e.droppedFull
  {
    if cid !in e.reg.byCid then e else
    var i := e.reg.byCid[cid];
    var r := e.reg.slots[i];
    if IsTerminal(r.state) || r.state == PendingCancel then e else
    var reg := e.reg.Set(i, r.(cancelEff := ts + e.cfg.cancelLatency));
    e.(reg := if r.state == Open then reg.Transition(i, PendingCancel) else reg,
       canceling := e.canceling + [i])
  }

  // ---------------------------------------------------------------- advancing the clock

  // FillSim::activate refuses an order of unknown depth on the Queue track.
  predicate Eligible(track: Track, displayed: int) { !(track == Queue && displayed < 0) }

  function ActivateAt(e: Engine, k: nat): (e': Engine)
    requires Indexed(e) && k < |e.pending|
    ensures Indexed(e') && |e'.pending| == |e.pending| - 1 && e'.books == e.books
    ensures e'.ineligible >= e.ineligible && |e'.reg.slots| == |e.reg.slots| && e'.cidSeq == e.cidSeq && e'.droppedFull == e.droppedFull
  {
    var p := e.pending[k];
    var reg := e.reg.Transition(p.idx, Open);
    var e1 := e.(pending := SwapOut(e.pending, k));
    if !Eligible(e.cfg.track, p.displayed) then
      e1.(reg := reg.Transition(p.idx, Expired), ineligible := e.ineligible + 1)
    else
      var r := reg.slots[p.idx].(queueAhead := if e.cfg.track == Queue then p.displayed else 0);
      var reg := reg.Set(p.idx, r);
      e1.(reg := if r.cancelEff != 0 then reg.Transition(p.idx, PendingCancel) else reg, open := e.open + [p.idx])
  }

  function ActivateDue(e: Engine, k: nat, now: nat): (e': Engine)
    requires Indexed(e) && k <= |e.pending|
    ensures Indexed(e') && e'.books == e.books
    ensures e'.ineligible >= e.ineligible && |e'.reg.slots| == |e.reg.slots| && e'.cidSeq == e.cidSeq && e'.droppedFull == e.droppedFull
    decreases |e.pending| - k
  {
    if k == |e.pending| then e
    else if now >= e.reg.slots[e.pending[k].idx].activeTs then ActivateDue(ActivateAt(e, k), k, now)
    else ActivateDue(e, k + 1, now)
  }

  // FillSim::remove: the first occurrence, if any.
  function Remove(open: seq<nat>, i: nat): seq<nat> { RemoveFrom(open, i, 0) }

  function RemoveFrom(open: seq<nat>, i: nat, k: nat): seq<nat>
    requires k <= |open|
    decreases |open| - k
  {
    if k == |open| then open else if open[k] == i then SwapOut(open, k) else RemoveFrom(open, i, k + 1)
  }

  lemma {:induction false} RemoveWithin(open: seq<nat>, i: nat, k: nat, n: nat)
    requires k <= |open| && Within(open, n)
    ensures Within(RemoveFrom(open, i, k), n)
    decreases |open| - k
  {
    if k < |open| && open[k] != i { RemoveWithin(open, i, k + 1, n); }
  }

  // Take a live order out of the simulator, end its life, and recycle its slot.
  function Retire(e: Engine, i: nat, to: OrdState): (e': Engine)
    requires Indexed(e) && i < |e.reg.slots|
    ensures Indexed(e') && e'.canceling == e.canceling && e'.byMarket == e.byMarket && e'.books == e.books
    ensures e'.ineligible >= e.ineligible && |e'.reg.slots| == |e.reg.slots| && e'.cidSeq == e.cidSeq && e'.droppedFull == e.droppedFull
  {
    RemoveWithin(e.open, i, 0, |e.reg.slots|);
    e.(open := Remove(e.open, i), reg := e.reg.Transition(i, to).Release(i))
  }

  predicate CancelDue(r: OrderRec, now: nat) { r.state == PendingCancel && now >= r.cancelEff }

  // May this canceling entry go? Either its cancel lands now, or the order was filled,
  // expired or recycled before it could.
  predicate SweepDone(r: OrderRec, now: nat) {
    CancelDue(r, now) || (r.state != PendingCancel && r.state != PendingNew && r.state != Open)
  }

  function SweepAt(e: Engine, k: nat, now: nat): (e': Engine)
    requires Indexed(e) && k < |e.canceling| && SweepDone(e.reg.slots[e.canceling[k]], now)
    ensures Indexed(e') && e'.books == e.books && |e'.canceling| == |e.canceling| - 1
    ensures e'.ineligible >= e.ineligible && |e'.reg.slots| == |e.reg.slots| && e'.cidSeq == e.cidSeq && e'.droppedFull == e.droppedFull
  {
    var i := e.canceling[k];
    var out := SwapOut(e.canceling, k);
    if CancelDue(e.reg.slots[i], now) then Retire(e, i, Canceled).(canceling := out) else e.(canceling := out)
  }

  function SweepDue(e: Engine, k: nat, now: nat): (e': Engine)
    requires Indexed(e) && k <= |e.canceling|
    ensures Indexed(e') && e'.books == e.books
    ensures e'.ineligible >= e.ineligible && |e'.reg.slots| == |e.reg.slots| && e'.cidSeq == e.cidSeq && e'.droppedFull == e.droppedFull
    decreases |e.canceling| - k
  {
    if k == |e.canceling| then e
    else if SweepDone(e.reg.slots[e.canceling[k]], now) then SweepDue(SweepAt(e, k, now), k, now)
    else SweepDue(e, k + 1, now)
  }

  function Advance(e: Engine, now: nat): (e': Engine)
    requires Indexed(e)
    ensures Indexed(e') && e'.books == e.books
    ensures e'.ineligible >= e.ineligible && |e'.reg.slots| == |e.reg.slots| && e'.cidSeq == e.cidSeq && e'.droppedFull == e.droppedFull
  {
    SweepDue(ActivateDue(e, 0, now), 0, now)
  }

  // ---------------------------------------------------------------- trades

  function HitAt(e: Engine, k: nat, p: Print): (e': Engine)
    requires Indexed(e) && k < |e.open| && p.market < |e.books|
    ensures Indexed(e') && e'.books == e.books && (e'.open == e.open || |e'.open| == |e.open| - 1)
    ensures e'.ineligible >= e.ineligible && |e'.reg.slots| == |e.reg.slots| && e'.cidSeq == e.cidSeq && e'.droppedFull == e.droppedFull
  {
    var i := e.open[k];
    var r := e.reg.slots[i];
    if !Reaches(r, p) then e else
    var reg := e.reg.Set(i, r.(queueAhead := r.queueAhead - Drain(e.cfg.track, r, p)));
    var qty := FillQty(e.cfg.track, r, p);
    if qty <= 0 then e.(reg := reg) else
    var f := Fill(r.cid, i, p.market, r.price, qty, r.buyYes, p.ts);
    var e1 := e.(reg := reg.ApplyFill(i, qty), scratch := e.scratch + [f]);
    if r.Remaining() - qty == 0 then e1.(open := SwapOut(e.open, k)) else e1
  }

  function HitFrom(e: Engine, k: nat, p: Print): (e': Engine)
    requires Indexed(e) && k <= |e.open| && p.market < |e.books|
    ensures Indexed(e') && e'.books == e.books
    ensures e'.ineligible >= e.ineligible && |e'.reg.slots| == |e.reg.slots| && e'.cidSeq == e.cidSeq && e'.droppedFull == e.droppedFull
    decreases |e.open| - k
  {
    if k == |e.open| then e
    else
      var e1 := HitAt(e, k, p);
      if |e1.open| < |e.open| then HitFrom(e1, k, p) else HitFrom(e1, k + 1, p)
  }

  // Hand the oldest undelivered fill to the ledger; recycle the slot of a filled order.
  function DeliverOne(e: Engine): (e': Engine)
    requires Indexed(e) && |e.scratch| > 0
    ensures Indexed(e') && |e'.scratch| == |e.scratch| - 1 && |e'.books| == |e.books|
    ensures e'.ineligible >= e.ineligible && |e'.reg.slots| == |e.reg.slots| && e'.cidSeq == e.cidSeq && e'.droppedFull == e.droppedFull
  {
    var f := e.scratch[0];
    var e1 := e.(books := OnFill(e.books, f), log := e.log + [f], scratch := e.scratch[1..]);
    if e.reg.slots[f.idx].state == Filled then e1.(reg := e.reg.Release(f.idx)) else e1
  }

  function Deliver(e: Engine): (e': Engine)
    requires Indexed(e)
    ensures Indexed(e') && |e'.books| == |e.books|
    ensures e'.ineligible >= e.ineligible && |e'.reg.slots| == |e.reg.slots| && e'.cidSeq == e.cidSeq && e'.droppedFull == e.droppedFull
    decreases |e.scratch|
  {
    if |e.scratch| == 0 then e else Deliver(DeliverOne(e))
  }

  function Trade(e: Engine, p: Print): (e': Engine)
    requires Indexed(e) && p.market < |e.books|
    ensures Indexed(e') && |e'.books| == |e.books|
    ensures e'.ineligible >= e.ineligible && |e'.reg.slots| == |e.reg.slots| && e'.cidSeq == e.cidSeq && e'.droppedFull == e.droppedFull
  {
    var e1 := Deliver(HitFrom(Advance(e, p.ts), 0, p));
    e1.(books := OnTrade(e1.books, p.market, p.price))
  }

  // ---------------------------------------------------------------- settlement

  function SettleOne(e: Engine, i: nat, market: nat): (e': Engine)
    requires Indexed(e) && i < |e.reg.slots|
    ensures Indexed(e') && e'.byMarket == e.byMarket && e'.books == e.books && |e'.reg.slots| == |e.reg.slots|
    ensures e'.ineligible >= e.ineligible && |e'.reg.slots| == |e.reg.slots| && e'.cidSeq == e.cidSeq && e'.droppedFull == e.droppedFull
  {
    var r := e.reg.slots[i];
    if r.market == market && IsLive(r.state)
    then Retire(e, i, if r.state == PendingCancel then Canceled else Expired) else e
  }

  function SettleFrom(e: Engine, list: seq<nat>, n: nat, market: nat): (e': Engine)
    requires Indexed(e) && Within(list, |e.reg.slots|) && n <= |list|
    ensures Indexed(e') && e'.byMarket == e.byMarket && e'.books == e.books
    ensures e'.ineligible >= e.ineligible && |e'.reg.slots| == |e.reg.slots| && e'.cidSeq == e.cidSeq && e'.droppedFull == e.droppedFull
    decreases |list| - n
  {
    if n == |list| then e else SettleFrom(SettleOne(e, list[n], market), list, n + 1, market)
  }

  function Settle(e: Engine, market: nat, yesWins: bool, ts: nat): (e': Engine)
    requires Indexed(e) && market < |e.books|
    ensures Indexed(e') && |e'.books| == |e.books|
    ensures e'.ineligible >= e.ineligible && |e'.reg.slots| == |e.reg.slots| && e'.cidSeq == e.cidSeq && e'.droppedFull == e.droppedFull
  {
    var e1 := Advance(e, ts);
    var e2 := SettleFrom(e1, Listed(e1.byMarket, market), 0, market);
    e2.(byMarket := e2.byMarket - {market}, books := OnSettle(e2.books, market, yesWins))
  }
}
