/**
 The shadow engine's classes with the fields and loops of the source: the registry of
 include/trading/shadow/order_registry.hpp, the simulator of fill_sim.hpp, the ledger of
 ledger.hpp and the engine of engine.hpp. Each method is proved to do to the object's
 state exactly what the function of the same name does to its value.
 */
module Shadow {

  import opened Orders
  import opened Lists
  import opened Ledger
  import opened Engine
  import E = Engine
  import opened ShadowRuns

  class OrderRegistry {
    var slots: seq<OrderRec>
    var free: seq<nat>
    var byCid: map<nat, nat>
    var gauge: Gauge
    var illegal: nat

    ghost function View(): Registry
      reads this
    {
      Registry(slots, free, byCid, gauge, illegal)
    }

    constructor (capacity: nat)
      ensures forall cfg :: View() == Fresh(cfg, capacity).reg
    {
      slots, byCid, gauge, illegal := seq(capacity, _ => EMPTY), map[], EmptyGauge(), 0;
      var list: seq<nat> := [];
      var i := capacity;
      while i > 0
        invariant i <= capacity && list == seq(capacity - i, k requires 0 <= k < capacity - i => capacity - 1 - k)
      {
        list := list + [i - 1];
        i := i - 1;
      }
      free := list;
    }

    method Place(cid: nat, market: nat, price: int, count: int, buyYes: bool, ts: nat, active: nat) returns (idx: int)
      requires gauge.Sized() && (|free| > 0 ==> free[|free| - 1] < |slots|)
      modifies this
      ensures old(|free|) == 0 ==> idx == -1 && View() == old(View())
      ensures old(|free|) > 0 ==>
        idx == old(free[|free| - 1]) && View() == old(View()).Place(cid, market, price, count, buyYes, ts, active)
    {
      if |free| == 0 { return -1; }
      var i := free[|free| - 1];
      free := free[..|free| - 1];
      slots := slots[i := EMPTY.(cid := cid, market := market, price := price, count := count,
                                 buyYes := buyYes, placeTs := ts, activeTs := active)];
      var _ := Transition(i, PendingNew);
      if cid !in byCid { byCid := byCid[cid := i]; }
      return i;
    }

    method Transition(idx: nat, to: OrdState) returns (ok: bool)
      requires idx < |slots| && gauge.Sized()
      modifies this
      ensures View() == old(View()).Transition(idx, to)
      ensures var legal :=
          {(Free, PendingNew), (PendingNew, Open), (Open, PendingCancel), (Open, Filled), (Open, Expired),
           (PendingCancel, Canceled), (PendingCancel, Filled)};
        ok <==> (old(slots[idx].state), to) in legal
    {
      var r := slots[idx];
      if !LegalTransition(r.state, to) {
        illegal := illegal + 1;
        return false;
      }
      slots := slots[idx := r.(state := to)];
      if to == Open { gauge := gauge.OnOpen(r.market, r.Remaining(), r.price, r.buyYes); }
      if IsTerminal(to) { gauge := gauge.OnClose(r.market, r.Remaining(), r.price, r.buyYes); }
      return true;
    }

    method ApplyFill(idx: nat, qty: int)
      requires idx < |slots| && gauge.Sized()
      modifies this
      ensures View() == old(View()).ApplyFill(idx, qty)
    {
      var r := slots[idx];
      gauge := gauge.OnClose(r.market, qty, r.price, r.buyYes);
      r := r.(filled := r.filled + qty);
      if r.Remaining() == 0 { r := r.(state := Filled); }
      slots := slots[idx := r];
    }

    method Release(idx: nat)
      requires idx < |slots|
      modifies this
      ensures View() == old(View()).Release(idx)
    {
      byCid := byCid - {slots[idx].cid};
      slots := slots[idx := slots[idx].(state := Free)];
      free := free + [idx];
    }

    // In the source, assignment through the reference `at` returns.
    method Put(idx: nat, r: OrderRec)
      requires idx < |slots|
      modifies this
      ensures View() == old(View()).Set(idx, r)
    {
      slots := slots[idx := r];
    }
  }

  class FillSim {
    const reg: OrderRegistry
    const track: Track
    var open: seq<nat>
    var unknownDepth: nat

    constructor (reg: OrderRegistry, track: Track)
      ensures this.reg == reg && this.track == track && open == [] && unknownDepth == 0
    {
      this.reg, this.track, open, unknownDepth := reg, track, [], 0;
    }

    method Activate(idx: nat, displayed: int) returns (ok: bool)
      requires idx < |reg.slots|
      modifies this, reg
      ensures ok == Eligible(track, displayed) && unknownDepth == old(unknownDepth) + (if ok then 0 else 1)
      ensures !ok ==> open == old(open) && reg.View() == old(reg.View())
      ensures ok ==> open == old(open) + [idx]
      ensures ok ==> reg.View() == old(reg.View()).Set(idx, old(reg.slots[idx]).(queueAhead := if track == Queue then displayed else 0))
    {
      if track == Queue && displayed < 0 {
        unknownDepth := unknownDepth + 1;
        return false;
      }
      reg.Put(idx, reg.slots[idx].(queueAhead := if track == Queue then displayed else 0));
      open := open + [idx];
      return true;
    }

    method Remove(idx: nat)
      modifies this`open
      ensures open == RemoveFrom(old(open), idx, 0)
    {
      var i := 0;
      while i < |open|
        invariant i <= |open| && open == old(open) && RemoveFrom(open, idx, 0) == RemoveFrom(open, idx, i)
      {
        if open[i] == idx {
          open := open[i := open[|open| - 1]];
          open := open[..|open| - 1];
          return;
        }
        i := i + 1;
      }
    }

    // e is the engine this simulator belongs to.
    method OnTrade(p: Print, scratch: seq<Fill>, ghost e: Engine) returns (out: seq<Fill>)
      requires Indexed(e) && p.market < |e.books|
      requires e.reg == reg.View() && e.open == open && e.scratch == scratch && e.cfg.track == track
      modifies this`open, reg
      ensures HitFrom(e, 0, p) == e.(reg := reg.View(), open := open, scratch := out)
    {
      out := scratch;
      var i := 0;
      ghost var cur := e;
      while i < |open|
        invariant i <= |open| && Indexed(cur) && cur.books == e.books
        invariant cur == e.(reg := reg.View(), open := open, scratch := out)
        invariant HitFrom(cur, i, p) == HitFrom(e, 0, p)
        decreases |open| - i
      {
        ghost var next := HitAt(cur, i, p);
        HitNext(cur, i, p, next);
        var shrunk;
        out, shrunk := HitOne(i, p, out, cur);
        if !shrunk { i := i + 1; }
        cur := next;
      }
    }

    // The loop body: one open order against the print.
    method HitOne(i: nat, p: Print, scratch: seq<Fill>, ghost e: Engine) returns (out: seq<Fill>, shrunk: bool)
      requires Indexed(e) && p.market < |e.books| && i < |open|
      requires e.reg == reg.View() && e.open == open && e.scratch == scratch && e.cfg.track == track
      modifies this`open, reg
      ensures HitAt(e, i, p) == e.(reg := reg.View(), open := open, scratch := out)
      ensures shrunk <==> |open| < |old(open)|
    {
      out, shrunk := scratch, false;
      var idx := open[i];
      var r := reg.slots[idx];
      if r.market == p.market && p.ts >= r.activeTs && Crosses(r, p.price, p.takerYes) {
        if r.cancelEff != 0 && p.ts >= r.cancelEff { return; }
        var available := p.size;
        var ahead := r.queueAhead;
        if track == Queue && AtLevelOnly(r, p.price) {
          var drain := if available < ahead then available else ahead;
          ahead := ahead - drain;
          available := available - drain;
        } else if track == Strict && AtLevelOnly(r, p.price) {
          available := 0;
        }
        assert ahead == r.queueAhead - Drain(track, r, p) && available == Available(track, r, p);
        reg.Put(idx, r.(queueAhead := ahead));
        ghost var drained := reg.View();
        if available > 0 && (track != Queue || ahead == 0) {
          var qty := if available < r.Remaining() then available else r.Remaining();
          assert qty == FillQty(track, r, p);
          if qty > 0 {
            out := out + [Fill(r.cid, idx, p.market, r.price, qty, r.buyYes, p.ts)];
            reg.ApplyFill(idx, qty);
            if r.Remaining() - qty == 0 {
              open := open[i := open[|open| - 1]];
              open := open[..|open| - 1];
              shrunk := true;
            }
            FillIs(e, i, p, drained, qty);
            return;
          }
        }
        DrainIs(e, i, p, drained);
      }
    }
  }

  lemma Accepted(e: Engine, mkt: nat, price: int, count: int, buyYes: bool, ts: nat, displayed: int, reg: Registry, e': Engine)
    requires Indexed(e) && mkt < |e.books| && |e.reg.free| > 0
    requires reg == e.reg.Place(e.cidSeq + 1, mkt, price, count, buyYes, ts, ts + e.cfg.placeLatency)
    requires var i := e.reg.free[|e.reg.free| - 1];
      e' == e.(cidSeq := e.cidSeq + 1, reg := reg, pending := e.pending + [Pending(i, displayed)],
               byMarket := e.byMarket[mkt := Listed(e.byMarket, mkt) + [i]])
    ensures e' == E.Place(e, mkt, price, count, buyYes, ts, displayed)
  {
  }

  lemma Dropped(e: Engine, mkt: nat, price: int, count: int, buyYes: bool, ts: nat, displayed: int)
    requires Indexed(e) && mkt < |e.books| && |e.reg.free| == 0
    ensures E.Place(e, mkt, price, count, buyYes, ts, displayed) == e.(cidSeq := e.cidSeq + 1, droppedFull := e.droppedFull + 1)
  {
  }

  // What activation leaves, by what the simulator answered.
  lemma Activates(e: Engine, k: nat, active: Registry, e': Engine)
    requires Indexed(e) && k < |e.pending| && active == e.reg.Transition(e.pending[k].idx, Open)
    requires var p := e.pending[k]; var track := e.cfg.track;
      if Eligible(track, p.displayed) then
        var r := active.slots[p.idx].(queueAhead := if track == Queue then p.displayed else 0);
        var reg := active.Set(p.idx, r);
        e' == e.(reg := if r.cancelEff != 0 then reg.Transition(p.idx, PendingCancel) else reg,
                 open := e.open + [p.idx], pending := SwapOut(e.pending, k))
      else e' == e.(reg := active.Transition(p.idx, Expired), ineligible := e.ineligible + 1, pending := SwapOut(e.pending, k))
    ensures e' == ActivateAt(e, k)
  {
  }

  // The branches of the loop body.
  lemma DrainIs(e: Engine, k: nat, p: Print, drained: Registry)
    requires Indexed(e) && k < |e.open| && p.market < |e.books| && Reaches(e.reg.slots[e.open[k]], p)
    requires var r := e.reg.slots[e.open[k]];
      FillQty(e.cfg.track, r, p) <= 0 && drained == e.reg.Set(e.open[k], r.(queueAhead := r.queueAhead - Drain(e.cfg.track, r, p)))
    ensures HitAt(e, k, p) == e.(reg := drained)
  {
  }

  lemma FillIs(e: Engine, k: nat, p: Print, drained: Registry, qty: int)
    requires Indexed(e) && k < |e.open| && p.market < |e.books| && Reaches(e.reg.slots[e.open[k]], p)
    requires var r := e.reg.slots[e.open[k]];
      qty == FillQty(e.cfg.track, r, p) > 0 && drained == e.reg.Set(e.open[k], r.(queueAhead := r.queueAhead - Drain(e.cfg.track, r, p)))
    ensures var i := e.open[k]; var r := e.reg.slots[i];
      HitAt(e, k, p) == e.(reg := drained.ApplyFill(i, qty), scratch := e.scratch + [Fill(r.cid, i, p.market, r.price, qty, r.buyYes, p.ts)],
                           open := if r.Remaining() - qty == 0 then SwapOut(e.open, k) else e.open)
  {
  }

  lemma Asked(e: Engine, cid: nat, ts: nat, e': Engine)
    requires Indexed(e) && cid in e.reg.byCid
    requires var i := e.reg.byCid[cid]; var r := e.reg.slots[i];
      && !IsTerminal(r.state) && r.state != PendingCancel
      && e'.reg == (var reg := e.reg.Set(i, r.(cancelEff := ts + e.cfg.cancelLatency));
                    if r.state == Open then reg.Transition(i, PendingCancel) else reg)
      && e' == e.(reg := e'.reg, canceling := e.canceling + [i])
    ensures e' == E.Cancel(e, cid, ts)
  {
  }

  lemma HitNext(e: Engine, k: nat, p: Print, e': Engine)
    requires Indexed(e) && k < |e.open| && p.market < |e.books| && e' == HitAt(e, k, p)
    ensures HitFrom(e, k, p) == HitFrom(e', if |e'.open| < |e.open| then k else k + 1, p)
  {
  }

  class ShadowEngine {
    const cfg: Config
    const reg: OrderRegistry
    const sim: FillSim
    var books: seq<MarketBook>
    var cidSeq: nat
    var droppedFull: nat
    var ineligible: nat
    var pending: seq<Pending>
    var canceling: seq<nat>
    var byMarket: map<nat, seq<nat>>
    var scratch: seq<Fill>
    ghost var log: seq<Fill>

    ghost function View(): Engine
      reads this, reg, sim
    {
      Engine(cfg, reg.View(), sim.open, books, cidSeq, droppedFull, ineligible, pending, canceling, byMarket, scratch, log)
    }

    ghost predicate Valid()
      reads this, reg, sim
    {
      sim.reg == reg && sim.track == cfg.track && sim.unknownDepth == ineligible && Indexed(View())
    }

    // The source's table has 8192 slots.
    constructor (cfg: Config, capacity: nat)
      ensures Valid() && View() == Fresh(cfg, capacity) && fresh(reg) && fresh(sim)
    {
      this.cfg := cfg;
      var r := new OrderRegistry(capacity);
      reg := r;
      sim := new FillSim(r, cfg.track);
      books, cidSeq, droppedFull, ineligible, pending, canceling, byMarket, scratch, log := [], 0, 0, 0, [], [], map[], [], [];
      new;
      assert View() == Fresh(cfg, capacity);
    }

    method Market() returns (m: nat)
      requires Valid()
      modifies this
      ensures Valid() && m == old(|books|) && View() == Step(old(View()), NewMarket)
    {
      m := |books|;
      books := books + [NEW_BOOK];
    }

    method Place(mkt: nat, price: int, count: int, buyYes: bool, ts: nat, displayed: int) returns (cid: nat)
      requires Valid() && mkt < |books|
      modifies this, reg
      ensures Valid() && View() == E.Place(old(View()), mkt, price, count, buyYes, ts, displayed)
      ensures cid == if old(|reg.free|) == 0 then 0 else old(cidSeq) + 1
    {
      cidSeq := cidSeq + 1;
      var idx := reg.Place(cidSeq, mkt, price, count, buyYes, ts, ts + cfg.placeLatency);
      if idx < 0 {
        droppedFull := droppedFull + 1;
        assert View() == old(View()).(cidSeq := cidSeq, droppedFull := droppedFull);
        Dropped(old(View()), mkt, price, count, buyYes, ts, displayed);
        return 0;
      }
      pending := pending + [Pending(idx, displayed)];
      byMarket := byMarket[mkt := Listed(byMarket, mkt) + [idx]];
      Accepted(old(View()), mkt, price, count, buyYes, ts, displayed, reg.View(), View());
      return cidSeq;
    }

    method Cancel(cid: nat, ts: nat)
      requires Valid()
      modifies this, reg
      ensures Valid() && View() == E.Cancel(old(View()), cid, ts)
    {
      if cid !in reg.byCid { return; }
      var idx := reg.byCid[cid];
      var r := reg.slots[idx];
      if IsTerminal(r.state) || r.state == PendingCancel { return; }
      reg.Put(idx, r.(cancelEff := ts + cfg.cancelLatency));
      if r.state == Open { var _ := reg.Transition(idx, PendingCancel); }
      canceling := canceling + [idx];
      Asked(old(View()), cid, ts, View());
    }

    method OnTrade(p: Print)
      requires Valid() && p.market < |books|
      modifies this, reg, sim
      ensures Valid() && View() == Trade(old(View()), p)
    {
      Advance(p.ts);
      ghost var e := View();
      HitAll(p);
      assert View() == HitFrom(e, 0, p);
      Deliver();
      books := books[p.market := books[p.market].(lastTrade := p.price)];
      assert View() == Trade(old(View()), p);
    }

    method HitAll(p: Print)
      requires Valid() && p.market < |books|
      modifies this, reg, sim
      ensures Valid() && View() == HitFrom(old(View()), 0, p)
    {
      scratch := sim.OnTrade(p, scratch, View());
      assert View() == HitFrom(old(View()), 0, p);
    }

    // The source walks the fills and then clears them.
    method Deliver()
      requires Valid()
      modifies this, reg
      ensures Valid() && View() == E.Deliver(old(View()))
    {
      while |scratch| > 0
        invariant Valid() && E.Deliver(View()) == E.Deliver(old(View()))
        decreases |scratch|
      {
        DeliverNext();
      }
    }

    method DeliverNext()
      requires Valid() && |scratch| > 0
      modifies this, reg
      ensures Valid() && View() == DeliverOne(old(View()))
    {
      var f := scratch[0];
      books := OnFill(books, f);
      log := log + [f];
      if reg.slots[f.idx].state == Filled { reg.Release(f.idx); }
      scratch := scratch[1..];
      assert View() == DeliverOne(old(View()));
    }

    method OnSettle(mkt: nat, yesWins: bool, ts: nat)
      requires Valid() && mkt < |books|
      modifies this, reg, sim
      ensures Valid() && View() == Settle(old(View()), mkt, yesWins, ts)
    {
      Advance(ts);
      ghost var e := View();
      var list := Listed(byMarket, mkt);
      SettleList(list, mkt);
      byMarket := byMarket - {mkt};
      books := books[mkt := books[mkt].(settled := true, settledYes := yesWins)];
      assert View() == Settle(old(View()), mkt, yesWins, ts);
    }

    method SettleList(list: seq<nat>, mkt: nat)
      requires Valid() && Within(list, |reg.slots|)
      modifies this, reg, sim
      ensures Valid() && View() == SettleFrom(old(View()), list, 0, mkt)
    {
      var n := 0;
      while n < |list|
        invariant n <= |list| && Valid() && Within(list, |reg.slots|)
        invariant SettleFrom(View(), list, n, mkt) == SettleFrom(old(View()), list, 0, mkt)
      {
        SettleSlot(list[n], mkt);
        n := n + 1;
      }
    }

    method SettleSlot(i: nat, mkt: nat)
      requires Valid() && i < |reg.slots|
      modifies this, reg, sim
      ensures Valid() && View() == SettleOne(old(View()), i, mkt)
    {
      var r := reg.slots[i];
      if r.market == mkt && (r.state == Open || r.state == PendingCancel) {
        Retire(i, if r.state == PendingCancel then Canceled else Expired);
      }
    }

    method Retire(i: nat, to: OrdState)
      requires Valid() && i < |reg.slots|
      modifies this, reg, sim
      ensures Valid() && View() == E.Retire(old(View()), i, to)
    {
      sim.Remove(i);
      var _ := reg.Transition(i, to);
      reg.Release(i);
      assert View() == E.Retire(old(View()), i, to);
    }

    method Advance(now: nat)
      requires Valid()
      modifies this, reg, sim
      ensures Valid() && View() == E.Advance(old(View()), now)
    {
      var i := 0;
      while i < |pending|
        invariant i <= |pending| && Valid()
        invariant ActivateDue(View(), i, now) == ActivateDue(old(View()), 0, now)
        decreases |pending| - i
      {
        if now >= reg.slots[pending[i].idx].activeTs { ActivatePending(i); } else { i := i + 1; }
      }
      ghost var e := View();
      var k := 0;
      while k < |canceling|
        invariant k <= |canceling| && Valid()
        invariant SweepDue(View(), k, now) == SweepDue(e, 0, now)
        decreases |canceling| - k
      {
        if SweepDone(reg.slots[canceling[k]], now) { SweepCanceling(k, now); } else { k := k + 1; }
      }
    }

    method ActivatePending(i: nat)
      requires Valid() && i < |pending|
      modifies this, reg, sim
      ensures Valid() && View() == ActivateAt(old(View()), i)
    {
      var p := pending[i];
      var _ := reg.Transition(p.idx, Open);
      ghost var active := reg.View();
      var ok := sim.Activate(p.idx, p.displayed);
      if !ok {
        var _ := reg.Transition(p.idx, Expired);
        ineligible := ineligible + 1;
      } else if reg.slots[p.idx].cancelEff != 0 {
        var _ := reg.Transition(p.idx, PendingCancel);
      }
      pending := pending[i := pending[|pending| - 1]];
      pending := pending[..|pending| - 1];
      Activates(old(View()), i, active, View());
    }

    method SweepCanceling(k: nat, now: nat)
      requires Valid() && k < |canceling| && SweepDone(reg.slots[canceling[k]], now)
      modifies this, reg, sim
      ensures Valid() && View() == SweepAt(old(View()), k, now)
    {
      var i := canceling[k];
      if CancelDue(reg.slots[i], now) { Retire(i, Canceled); }
      canceling := canceling[k := canceling[|canceling| - 1]];
      canceling := canceling[..|canceling| - 1];
    }
  }
}
