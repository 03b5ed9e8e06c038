/**
 The engine's tables agree with each other and with the order life cycles at every
 moment: one invariant over the slot table, the free list, the order-id index, the
 simulator's open list, the pending, canceling and per-market lists, the gauge and the
 fill history, kept by every step of every loop.
 */
module Refinement {

  import opened Orders
  import opened Lists
  import opened Ledger
  import opened Engine
  import opened Lifecycle

  // ---------------------------------------------------------------- work lists

  datatype Class = FreeSlots | PendingSlots | LiveSlots

  predicate InClass(st: OrdState, c: Class) {
    match c
    case FreeSlots => st == Free
    case PendingSlots => st == PendingNew
    case LiveSlots => IsLive(st)
  }

  // The list holds exactly the slots of its class, each once.
  ghost predicate Holds(list: seq<nat>, slots: seq<OrderRec>, c: Class) {
    && Distinct(list)
    && (forall i :: i in list <==> 0 <= i < |slots| && InClass(slots[i].state, c))
  }

  lemma HoldsSame(list: seq<nat>, slots: seq<OrderRec>, i: nat, r: OrderRec, c: Class)
    requires Holds(list, slots, c) && i < |slots| && InClass(r.state, c) == InClass(slots[i].state, c)
    ensures Holds(list, slots[i := r], c)
  {
  }

  lemma HoldsPush(list: seq<nat>, slots: seq<OrderRec>, i: nat, r: OrderRec, c: Class)
    requires Holds(list, slots, c) && i < |slots| && !InClass(slots[i].state, c) && InClass(r.state, c)
    ensures Holds(list + [i], slots[i := r], c)
  {
    PushDistinct(list, i);
  }

  lemma HoldsSwapOut(list: seq<nat>, slots: seq<OrderRec>, k: nat, r: OrderRec, c: Class)
    requires Holds(list, slots, c) && k < |list| && !InClass(r.state, c)
    ensures list[k] < |slots| && Holds(SwapOut(list, k), slots[list[k] := r], c)
  {
    assert list[k] in list;
    SwapOutDistinct(list, k);
  }

  lemma HoldsPop(list: seq<nat>, slots: seq<OrderRec>, r: OrderRec, c: Class)
    requires Holds(list, slots, c) && |list| > 0 && !InClass(r.state, c)
    ensures var i := list[|list| - 1]; i < |slots| && Holds(list[..|list| - 1], slots[i := r], c)
  {
    var n := |list| - 1;
    assert list[n] in list;
    SwapOutDistinct(list, n);
    assert SwapOut(list, n) == list[..n];
  }

  lemma {:induction false} HoldsRemove(list: seq<nat>, slots: seq<OrderRec>, i: nat, r: OrderRec, c: Class, k: nat)
    requires Holds(list, slots, c) && k <= |list| && i in list[k..] && !InClass(r.state, c)
    ensures i < |slots| && Holds(RemoveFrom(list, i, k), slots[i := r], c)
    decreases |list| - k
  {
    if list[k] == i {
      HoldsSwapOut(list, slots, k, r, c);
    } else {
      assert list[k..][1..] == list[k + 1..];
      HoldsRemove(list, slots, i, r, c, k + 1);
    }
  }

  lemma HeadIn(list: seq<nat>)
    ensures list == [] || exists x :: x in list
  {
    if list != [] { assert list[0] in list; }
  }

  // The length of such a list counts its class.
  lemma {:induction false} HoldsCount(list: seq<nat>, slots: seq<OrderRec>, c: Class)
    requires Holds(list, slots, c)
    ensures |list| == ClassCount(slots, c)
    decreases |slots|
  {
    if slots == [] {
      HeadIn(list);
    } else {
      var n := |slots| - 1;
      if InClass(slots[n].state, c) {
        assert n in list;
        var k :| 0 <= k < |list| && list[k] == n;
        SwapOutDistinct(list, k);
        HoldsCount(SwapOut(list, k), slots[..n], c);
      } else {
        HoldsCount(list, slots[..n], c);
      }
    }
  }

  function ClassCount(slots: seq<OrderRec>, c: Class): nat
    decreases |slots|
  {
    if slots == [] then 0
    else ClassCount(slots[..|slots| - 1], c) + (if InClass(slots[|slots| - 1].state, c) then 1 else 0)
  }

  lemma {:induction false} SumSnoc(slots: seq<OrderRec>, q: Quantity)
    requires slots != []
    ensures Sum(slots, q) == Sum(slots[..|slots| - 1], q) + Weight(slots[|slots| - 1], q)
  {
    if |slots| > 1 {
      SumSnoc(slots[1..], q);
      assert slots[1..][..|slots| - 2] == slots[..|slots| - 1][1..];
    }
  }

  // Between operations a slot is free, waiting, live, or lost to an ineligible order.
  lemma {:induction false} SlotsAccounted(slots: seq<OrderRec>)
    requires forall i | 0 <= i < |slots| :: slots[i].state != Filled && slots[i].state != Canceled
    ensures ClassCount(slots, FreeSlots) + ClassCount(slots, PendingSlots) + ClassCount(slots, LiveSlots)
          + Sum(slots, InState(Expired)) == |slots|
    decreases |slots|
  {
    if slots != [] {
      SlotsAccounted(slots[..|slots| - 1]);
      SumSnoc(slots, InState(Expired));
    }
  }

  function Idxs(pending: seq<Pending>): (s: seq<nat>)
    ensures |s| == |pending| && forall k | 0 <= k < |s| :: s[k] == pending[k].idx
  {
    seq(|pending|, k requires 0 <= k < |pending| => pending[k].idx)
  }

  // ---------------------------------------------------------------- cancels and the index

  // Every order with a cancel on its way is on the canceling list (which may also hold
  // stale and repeated entries).
  predicate AwaitsCancel(r: OrderRec) { r.state == PendingCancel || (r.state == PendingNew && r.cancelEff != 0) }

  ghost predicate CancelsListed(canceling: seq<nat>, slots: seq<OrderRec>) {
    forall i | 0 <= i < |slots| && AwaitsCancel(slots[i]) :: i in canceling
  }

  // by_cid_ is a bijection between the ids in use and the slots in use.
  ghost predicate CidIndex(reg: Registry, cidSeq: nat) {
    && (forall i | 0 <= i < |reg.slots| && reg.slots[i].state != Free ::
          reg.slots[i].cid in reg.byCid && reg.byCid[reg.slots[i].cid] == i)
    && (forall c | c in reg.byCid ::
          && c <= cidSeq && reg.byCid[c] < |reg.slots|
          && reg.slots[reg.byCid[c]].state != Free && reg.slots[reg.byCid[c]].cid == c)
  }

  lemma CidSame(reg: Registry, cidSeq: nat, i: nat, r: OrderRec)
    requires CidIndex(reg, cidSeq) && i < |reg.slots| && reg.slots[i].state != Free && r.state != Free && r.cid == reg.slots[i].cid
    ensures CidIndex(reg.Set(i, r), cidSeq)
  {
  }

  lemma CidRecycled(reg: Registry, cidSeq: nat, i: nat, reg': Registry)
    requires CidIndex(reg, cidSeq) && i < |reg.slots| && reg.slots[i].state != Free
    requires reg'.slots == reg.slots[i := reg.slots[i].(state := Free)] && reg'.byCid == reg.byCid - {reg.slots[i].cid}
    ensures CidIndex(reg', cidSeq)
  {
  }

  ghost predicate Struct(e: Engine) {
    && Indexed(e)
    && Holds(e.reg.free, e.reg.slots, FreeSlots)
    && Holds(Idxs(e.pending), e.reg.slots, PendingSlots)
    && Holds(e.open, e.reg.slots, LiveSlots)
    && CancelsListed(e.canceling, e.reg.slots)
    && CidIndex(e.reg, e.cidSeq)
    && GaugeExact(e.reg.slots, e.reg.gauge)
    && e.reg.illegal == 0
    && e.ineligible == Sum(e.reg.slots, InState(Expired))
  }

  // A slot in use is rewritten and stays in use.
  lemma Rewritten(e: Engine, i: nat, r: OrderRec, e': Engine)
    requires Struct(e) && i < |e.reg.slots| && e.reg.slots[i].state != Free && r.state != Free && r.cid == e.reg.slots[i].cid
    requires Indexed(e') && e'.reg.slots == e.reg.slots[i := r]
    requires e'.reg.free == e.reg.free && e'.reg.byCid == e.reg.byCid && e'.reg.illegal == 0 && e'.cidSeq == e.cidSeq
    requires Holds(Idxs(e'.pending), e'.reg.slots, PendingSlots) && Holds(e'.open, e'.reg.slots, LiveSlots)
    requires CancelsListed(e'.canceling, e'.reg.slots) && GaugeExact(e'.reg.slots, e'.reg.gauge)
    requires e'.ineligible - e.ineligible == Weight(r, InState(Expired)) - Weight(e.reg.slots[i], InState(Expired))
    ensures Struct(e')
  {
    HoldsSame(e.reg.free, e.reg.slots, i, r, FreeSlots);
    CidSame(e.reg, e.cidSeq, i, r);
    SumUpdate(e.reg.slots, i, r, InState(Expired));
  }

  // A slot in use is recycled.
  lemma Recycled(e: Engine, i: nat, e': Engine)
    requires Struct(e) && i < |e.reg.slots| && e.reg.slots[i].state != Free
    requires e.reg.slots[i].state != PendingNew && e.reg.slots[i].state != Expired
    requires Indexed(e') && e'.reg.slots == e.reg.slots[i := e.reg.slots[i].(state := Free)]
    requires e'.reg.free == e.reg.free + [i] && e'.reg.byCid == e.reg.byCid - {e.reg.slots[i].cid} && e'.reg.illegal == 0
    requires e'.cidSeq == e.cidSeq && e'.pending == e.pending && e'.canceling == e.canceling && e'.ineligible == e.ineligible
    requires Holds(e'.open, e'.reg.slots, LiveSlots) && GaugeExact(e'.reg.slots, e'.reg.gauge)
    ensures Struct(e')
  {
    var s := e.reg.slots;
    var r := s[i].(state := Free);
    HoldsPush(e.reg.free, s, i, r, FreeSlots);
    HoldsSame(Idxs(e.pending), s, i, r, PendingSlots);
    CidRecycled(e.reg, e.cidSeq, i, e'.reg);
    SumUpdate(s, i, r, InState(Expired));
  }

  // ---------------------------------------------------------------- activation

  lemma PendingSwapOut(pending: seq<Pending>, k: nat)
    requires k < |pending|
    ensures Idxs(SwapOut(pending, k)) == SwapOut(Idxs(pending), k)
  {
  }

  // The one record activation writes.
  function Opened(e: Engine, k: nat): OrderRec
    requires Indexed(e) && k < |e.pending|
  {
    var p := e.pending[k];
    Activated(e.cfg.track, Life(e.reg.slots[p.idx], p.displayed, false), e.reg.slots[p.idx].activeTs).rec
  }

  lemma OpenedIs(e: Engine, k: nat)
    requires Indexed(e) && k < |e.pending| && e.reg.slots[e.pending[k].idx].state == PendingNew
    ensures var r, was := Opened(e, k), e.reg.slots[e.pending[k].idx];
      && r.cid == was.cid && (AwaitsCancel(r) ==> AwaitsCancel(was))
      && (if Eligible(e.cfg.track, e.pending[k].displayed) then IsLive(r.state) else r.state == Expired)
  {
  }

  lemma ActivateSlots(e: Engine, k: nat)
    requires Indexed(e) && k < |e.pending| && e.reg.slots[e.pending[k].idx].state == PendingNew
    requires GaugeExact(e.reg.slots, e.reg.gauge)
    ensures var e', i := ActivateAt(e, k), e.pending[k].idx;
      && e'.reg.slots == e.reg.slots[i := Opened(e, k)]
      && e'.reg == e.reg.(slots := e'.reg.slots, gauge := e'.reg.gauge)
      && GaugeExact(e'.reg.slots, e'.reg.gauge)
      && e'.open == (if Eligible(e.cfg.track, e.pending[k].displayed) then e.open + [i] else e.open)
  {
    var p := e.pending[k];
    var i, s := p.idx, e.reg.slots;
    var reg := e.reg.Transition(i, Open);
    TransitionGauge(e.reg, i, Open);
    if Eligible(e.cfg.track, p.displayed) {
      var r := reg.slots[i].(queueAhead := if e.cfg.track == Queue then p.displayed else 0);
      SameExposure(reg.slots, reg.gauge, i, r);
      assert reg.slots[i := r] == s[i := r];
      if r.cancelEff != 0 { TransitionGauge(reg.Set(i, r), i, PendingCancel); }
    } else {
      TransitionGauge(reg, i, Expired);
      assert reg.Transition(i, Expired).slots == s[i := s[i].(state := Expired)];
    }
  }

  lemma ActivateOpen(open: seq<nat>, slots: seq<OrderRec>, i: nat, r: OrderRec, open': seq<nat>)
    requires Holds(open, slots, LiveSlots) && i < |slots| && slots[i].state == PendingNew
    requires open' == if IsLive(r.state) then open + [i] else open
    ensures Holds(open', slots[i := r], LiveSlots)
  {
    if IsLive(r.state) { HoldsPush(open, slots, i, r, LiveSlots); } else { HoldsSame(open, slots, i, r, LiveSlots); }
  }

  lemma ActivatePending(pending: seq<Pending>, slots: seq<OrderRec>, k: nat, r: OrderRec)
    requires Holds(Idxs(pending), slots, PendingSlots) && k < |pending| && pending[k].idx < |slots| && r.state != PendingNew
    ensures Holds(Idxs(SwapOut(pending, k)), slots[pending[k].idx := r], PendingSlots)
  {
    assert Idxs(pending)[k] == pending[k].idx;
    PendingSwapOut(pending, k);
    HoldsSwapOut(Idxs(pending), slots, k, r, PendingSlots);
  }

  lemma ActivateCancels(canceling: seq<nat>, slots: seq<OrderRec>, i: nat, r: OrderRec)
    requires CancelsListed(canceling, slots) && i < |slots| && (AwaitsCancel(r) ==> AwaitsCancel(slots[i]))
    ensures CancelsListed(canceling, slots[i := r])
  {
  }

  lemma ActivateLists(e: Engine, k: nat, r: OrderRec, e': Engine)
    requires Struct(e) && k < |e.pending| && Indexed(e')
    requires var i := e.pending[k].idx; var was := e.reg.slots[i];
      && was.state == PendingNew && r.cid == was.cid && (AwaitsCancel(r) ==> AwaitsCancel(was))
      && (IsLive(r.state) || r.state == Expired)
      && e'.reg == e.reg.(slots := e.reg.slots[i := r], gauge := e'.reg.gauge) && GaugeExact(e'.reg.slots, e'.reg.gauge)
      && e'.open == (if IsLive(r.state) then e.open + [i] else e.open)
    requires e'.pending == SwapOut(e.pending, k) && e'.canceling == e.canceling && e'.cidSeq == e.cidSeq
    requires e'.ineligible == e.ineligible + if r.state == Expired then 1 else 0
    ensures Struct(e')
  {
    var i, s := e.pending[k].idx, e.reg.slots;
    ActivatePending(e.pending, s, k, r);
    ActivateOpen(e.open, s, i, r, e'.open);
    ActivateCancels(e.canceling, s, i, r);
    Rewritten(e, i, r, e');
  }

  lemma WaitsAt(e: Engine, k: nat)
    requires Indexed(e) && Holds(Idxs(e.pending), e.reg.slots, PendingSlots) && k < |e.pending|
    ensures e.reg.slots[e.pending[k].idx].state == PendingNew
  {
    assert Idxs(e.pending)[k] == e.pending[k].idx && e.pending[k].idx in Idxs(e.pending);
  }

  lemma ActivateStruct(e: Engine, k: nat)
    requires Struct(e) && k < |e.pending|
    ensures Struct(ActivateAt(e, k))
  {
    WaitsAt(e, k);
    ActivateSlots(e, k);
    OpenedIs(e, k);
    ActivateFrame(e, k);
    ActivateLists(e, k, Opened(e, k), ActivateAt(e, k));
  }

  // ---------------------------------------------------------------- leaving the book

  lemma RetireSlots(e: Engine, i: nat, to: OrdState)
    requires Indexed(e) && i < |e.reg.slots| && GaugeExact(e.reg.slots, e.reg.gauge)
    requires IsLive(e.reg.slots[i].state) && LegalTransition(e.reg.slots[i].state, to) && IsTerminal(to) && to != Filled
    ensures var e' := Retire(e, i, to);
      && e'.reg.slots == e.reg.slots[i := e.reg.slots[i].(state := Free)]
      && e'.reg.free == e.reg.free + [i] && e'.reg.byCid == e.reg.byCid - {e.reg.slots[i].cid} && e'.reg.illegal == e.reg.illegal
      && GaugeExact(e'.reg.slots, e'.reg.gauge)
  {
    TransitionGauge(e.reg, i, to);
    var reg := e.reg.Transition(i, to);
    IdleGauge(reg.slots, reg.gauge, i, reg.slots[i].(state := Free));
    assert reg.Release(i).slots == e.reg.slots[i := e.reg.slots[i].(state := Free)];
  }

  lemma RetireStruct(e: Engine, i: nat, to: OrdState)
    requires Struct(e) && i < |e.reg.slots|
    requires IsLive(e.reg.slots[i].state) && LegalTransition(e.reg.slots[i].state, to) && IsTerminal(to) && to != Filled
    ensures Struct(Retire(e, i, to))
  {
    var e', s := Retire(e, i, to), e.reg.slots;
    var r := s[i].(state := Free);
    RetireSlots(e, i, to);
    assert e.open[0..] == e.open;
    HoldsRemove(e.open, s, i, r, LiveSlots, 0);
    Recycled(e, i, e');
  }

  // ---------------------------------------------------------------- fills

  lemma HitSlots(e: Engine, k: nat, p: Print)
    requires Indexed(e) && k < |e.open| && p.market < |e.books| && IsLive(e.reg.slots[e.open[k]].state)
    requires GaugeExact(e.reg.slots, e.reg.gauge)
    ensures var e', i := HitAt(e, k, p), e.open[k];
      var r := Hit(e.cfg.track, Life(e.reg.slots[i], 0, false), p).rec;
      && e'.reg == e.reg.(slots := e.reg.slots[i := r], gauge := e'.reg.gauge)
      && GaugeExact(e'.reg.slots, e'.reg.gauge)
      && e'.open == (if r.state == Filled then SwapOut(e.open, k) else e.open)
  {
    var i := e.open[k];
    var r := e.reg.slots[i];
    if Reaches(r, p) {
      var d := r.(queueAhead := r.queueAhead - Drain(e.cfg.track, r, p));
      SameExposure(e.reg.slots, e.reg.gauge, i, d);
      var reg := e.reg.Set(i, d);
      var qty := FillQty(e.cfg.track, r, p);
      if qty > 0 { HitFills(e, k, p, reg, qty); }
    } else {
      assert e.reg.slots[i := r] == e.reg.slots;
    }
  }

  lemma HitFills(e: Engine, k: nat, p: Print, reg: Registry, qty: int)
    requires Indexed(e) && k < |e.open| && p.market < |e.books|
    requires var i := e.open[k]; var r := e.reg.slots[i];
      && IsLive(r.state) && Reaches(r, p) && qty == FillQty(e.cfg.track, r, p) > 0
      && reg == e.reg.Set(i, r.(queueAhead := r.queueAhead - Drain(e.cfg.track, r, p)))
    requires GaugeExact(reg.slots, reg.gauge)
    ensures var e', i := HitAt(e, k, p), e.open[k];
      var r := Hit(e.cfg.track, Life(e.reg.slots[i], 0, false), p).rec;
      && e'.reg == e.reg.(slots := e.reg.slots[i := r], gauge := e'.reg.gauge)
      && GaugeExact(e'.reg.slots, e'.reg.gauge)
      && e'.open == (if r.state == Filled then SwapOut(e.open, k) else e.open)
  {
    var i := e.open[k];
    FillGauge(reg, i, qty);
    FilledSlot(e.reg, i, reg.slots[i], qty);
    assert HitAt(e, k, p).reg == reg.ApplyFill(i, qty);
  }

  // Writing a slot and then filling it writes the slot once.
  lemma FilledSlot(reg: Registry, i: nat, d: OrderRec, qty: int)
    requires i < |reg.slots| && reg.gauge.Sized()
    ensures var r := d.(filled := d.filled + qty);
      reg.Set(i, d).ApplyFill(i, qty)
      == reg.(slots := reg.slots[i := if r.Remaining() == 0 then r.(state := Filled) else r],
              gauge := reg.gauge.OnClose(d.market, qty, d.price, d.buyYes))
  {
    var r := d.(filled := d.filled + qty);
    var last := if r.Remaining() == 0 then r.(state := Filled) else r;
    assert reg.slots[i := d][i := last] == reg.slots[i := last];
  }

  lemma OpenAt(e: Engine, k: nat)
    requires Indexed(e) && Holds(e.open, e.reg.slots, LiveSlots) && k < |e.open|
    ensures IsLive(e.reg.slots[e.open[k]].state)
  {
    assert e.open[k] in e.open;
  }

  lemma HitStruct(e: Engine, k: nat, p: Print)
    requires Struct(e) && k < |e.open| && p.market < |e.books|
    ensures Struct(HitAt(e, k, p))
  {
    OpenAt(e, k);
    HitSlots(e, k, p);
    HitLists(e, k, Hit(e.cfg.track, Life(e.reg.slots[e.open[k]], 0, false), p).rec, HitAt(e, k, p));
  }

  lemma HitLists(e: Engine, k: nat, r: OrderRec, e': Engine)
    requires Struct(e) && k < |e.open| && Indexed(e') && IsLive(e.reg.slots[e.open[k]].state)
    requires var i := e.open[k];
      && e'.reg == e.reg.(slots := e.reg.slots[i := r], gauge := e'.reg.gauge)
      && e'.pending == e.pending && e'.canceling == e.canceling && e'.cidSeq == e.cidSeq && e'.ineligible == e.ineligible
      && GaugeExact(e'.reg.slots, e'.reg.gauge)
      && r.cid == e.reg.slots[i].cid && (r.state == Filled || r.state == e.reg.slots[i].state)
      && e'.open == (if r.state == Filled then SwapOut(e.open, k) else e.open)
    ensures Struct(e')
  {
    HitOpen(e.open, e.reg.slots, k, r, e'.open);
    HoldsSame(Idxs(e.pending), e.reg.slots, e.open[k], r, PendingSlots);
    HitCancels(e.canceling, e.reg.slots, e.open[k], r);
    Rewritten(e, e.open[k], r, e');
  }

  lemma HitOpen(open: seq<nat>, slots: seq<OrderRec>, k: nat, r: OrderRec, open': seq<nat>)
    requires Holds(open, slots, LiveSlots) && k < |open| && open[k] < |slots| && (r.state == Filled || r.state == slots[open[k]].state)
    requires open' == if r.state == Filled then SwapOut(open, k) else open
    ensures Holds(open', slots[open[k] := r], LiveSlots)
  {
    if r.state == Filled {
      HoldsSwapOut(open, slots, k, r, LiveSlots);
    } else {
      HoldsSame(open, slots, open[k], r, LiveSlots);
    }
  }

  lemma HitCancels(canceling: seq<nat>, slots: seq<OrderRec>, i: nat, r: OrderRec)
    requires CancelsListed(canceling, slots) && i < |slots| && IsLive(slots[i].state) && (r.state == Filled || r.state == slots[i].state)
    ensures CancelsListed(canceling, slots[i := r])
  {
  }

  lemma DeliverStruct(e: Engine)
    requires Struct(e) && |e.scratch| > 0
    ensures Struct(DeliverOne(e))
  {
    var i, s := e.scratch[0].idx, e.reg.slots;
    if s[i].state == Filled {
      ReleaseStruct(e, i);
      assert DeliverOne(e).reg == e.reg.Release(i);
    }
  }

  // Recycling the slot of a filled order.
  lemma ReleaseStruct(e: Engine, i: nat)
    requires Struct(e) && i < |e.reg.slots| && e.reg.slots[i].state == Filled
    ensures Struct(e.(reg := e.reg.Release(i)))
  {
    var s := e.reg.slots;
    var r := s[i].(state := Free);
    HoldsSame(e.open, s, i, r, LiveSlots);
    IdleGauge(s, e.reg.gauge, i, r);
    Recycled(e, i, e.(reg := e.reg.Release(i)));
  }

  // ---------------------------------------------------------------- requests

  lemma PlaceSlots(e: Engine, market: nat, price: int, count: int, buyYes: bool, ts: nat, displayed: int)
    requires Struct(e) && |e.reg.free| > 0 && market < |e.books|
    ensures var e' := PlaceAccepted(e, market, price, count, buyYes, ts, displayed);
      var i := e.reg.free[|e.reg.free| - 1];
      var r := NewLife(e.cfg, e.cidSeq + 1, market, price, count, buyYes, ts, displayed).rec;
      && e.reg.slots[i].state == Free
      && e'.reg == e.reg.(slots := e.reg.slots[i := r], free := e.reg.free[..|e.reg.free| - 1], byCid := e.reg.byCid[r.cid := i])
  {
    var i := e.reg.free[|e.reg.free| - 1];
    assert i in e.reg.free;
  }

  lemma PlaceStruct(e: Engine, market: nat, price: int, count: int, buyYes: bool, ts: nat, displayed: int)
    requires Struct(e) && |e.reg.free| > 0 && market < |e.books|
    ensures Struct(PlaceAccepted(e, market, price, count, buyYes, ts, displayed))
  {
    PlaceSlots(e, market, price, count, buyYes, ts, displayed);
    PlaceLists(e, NewLife(e.cfg, e.cidSeq + 1, market, price, count, buyYes, ts, displayed).rec, displayed,
               PlaceAccepted(e, market, price, count, buyYes, ts, displayed));
  }

  lemma PlaceLists(e: Engine, r: OrderRec, displayed: int, e': Engine)
    requires Struct(e) && |e.reg.free| > 0 && Indexed(e')
    requires r.state == PendingNew && r.cancelEff == 0 && r.cid == e.cidSeq + 1 == e'.cidSeq
    requires var i := e.reg.free[|e.reg.free| - 1];
      && e.reg.slots[i].state == Free
      && e'.reg == e.reg.(slots := e.reg.slots[i := r], free := e.reg.free[..|e.reg.free| - 1], byCid := e.reg.byCid[r.cid := i])
      && e'.pending == e.pending + [Pending(i, displayed)]
      && e'.open == e.open && e'.canceling == e.canceling && e'.ineligible == e.ineligible
    ensures Struct(e')
  {
    var i, s := e.reg.free[|e.reg.free| - 1], e.reg.slots;
    HoldsPop(e.reg.free, s, r, FreeSlots);
    HoldsPush(Idxs(e.pending), s, i, r, PendingSlots);
    assert Idxs(e'.pending) == Idxs(e.pending) + [i];
    HoldsSame(e.open, s, i, r, LiveSlots);
    IdleGauge(s, e.reg.gauge, i, r);
    SumUpdate(s, i, r, InState(Expired));
    CidPlaced(e.reg, e.cidSeq, i, r, e'.reg);
  }

  lemma CidPlaced(reg: Registry, cidSeq: nat, i: nat, r: OrderRec, reg': Registry)
    requires CidIndex(reg, cidSeq) && i < |reg.slots| && reg.slots[i].state == Free && r.state != Free && r.cid == cidSeq + 1
    requires reg'.slots == reg.slots[i := r] && reg'.byCid == reg.byCid[r.cid := i]
    ensures CidIndex(reg', cidSeq + 1)
  {
  }

  lemma CancelSlots(e: Engine, cid: nat, ts: nat)
    requires Indexed(e) && GaugeExact(e.reg.slots, e.reg.gauge) && cid in e.reg.byCid
    ensures var e', i := Cancel(e, cid, ts), e.reg.byCid[cid];
      && e'.reg.slots == e.reg.slots[i := CancelAsked(e.cfg, Life(e.reg.slots[i], 0, false), ts).rec]
      && e'.reg == e.reg.(slots := e'.reg.slots)
      && GaugeExact(e'.reg.slots, e'.reg.gauge)
      && (e'.canceling == e.canceling || e'.canceling == e.canceling + [i])
      && (e'.canceling == e.canceling ==> e' == e)
  {
    var i := e.reg.byCid[cid];
    var r := e.reg.slots[i];
    if IsTerminal(r.state) || r.state == PendingCancel {
      assert e.reg.slots[i := r] == e.reg.slots;
    } else {
      var d := r.(cancelEff := ts + e.cfg.cancelLatency);
      SameExposure(e.reg.slots, e.reg.gauge, i, d);
      if r.state == Open { TransitionGauge(e.reg.Set(i, d), i, PendingCancel); }
    }
  }

  lemma CancelStruct(e: Engine, cid: nat, ts: nat)
    requires Struct(e)
    ensures Struct(Cancel(e, cid, ts))
  {
    if cid in e.reg.byCid {
      var i, s := e.reg.byCid[cid], e.reg.slots;
      var r := CancelAsked(e.cfg, Life(s[i], 0, false), ts).rec;
      CancelSlots(e, cid, ts);
      HoldsSame(Idxs(e.pending), s, i, r, PendingSlots);
      HoldsSame(e.open, s, i, r, LiveSlots);
      Rewritten(e, i, r, Cancel(e, cid, ts));
    }
  }

  // ---------------------------------------------------------------- agreement with the life cycles

  // A slot in use holds its order's record; an order out of the table is over.
  ghost predicate RecsMatch(reg: Registry, j: Ideal) {
    && (forall c | c in reg.byCid :: c in j && reg.byCid[c] < |reg.slots| && j[c].rec == reg.slots[reg.byCid[c]])
    && (forall c | c in j && c !in reg.byCid :: IsTerminal(j[c].rec.state))
  }

  ghost predicate DisplayedMatch(pending: seq<Pending>, slots: seq<OrderRec>, j: Ideal) {
    forall k | 0 <= k < |pending| ::
      pending[k].idx < |slots| && slots[pending[k].idx].cid in j &&
      j[slots[pending[k].idx].cid].displayed == pending[k].displayed
  }

  // An order in the table is on its market's list exactly when that market has not
  // settled since the order was placed.
  ghost predicate ListedMatch(byMarket: map<nat, seq<nat>>, reg: Registry, j: Ideal) {
    forall c | c in reg.byCid :: c in j && (j[c].listed <==> reg.byCid[c] in Listed(byMarket, j[c].rec.market))
  }

  // The fills handed out for an order add up to its filled quantity.
  ghost predicate FillsMatch(fills: seq<Fill>, j: Ideal) {
    && (forall c :: FilledQty(fills, c) == if c in j then j[c].rec.filled else 0)
    && (forall k | 0 <= k < |fills| :: fills[k].qty > 0)
  }

  ghost predicate Match(e: Engine, j: Ideal) {
    && RecsMatch(e.reg, j)
    && DisplayedMatch(e.pending, e.reg.slots, j)
    && ListedMatch(e.byMarket, e.reg, j)
    && FillsMatch(e.log + e.scratch, j)
    && (forall c | c in j :: c <= e.cidSeq)
  }

  // An order that is filled but still in the table has an undelivered fill.
  ghost predicate Queued(e: Engine) {
    forall i | 0 <= i < |e.reg.slots| ::
      && e.reg.slots[i].state != Canceled
      && (e.reg.slots[i].state == Filled ==> exists k | 0 <= k < |e.scratch| :: e.scratch[k].idx == i)
  }

  ghost predicate Refines(e: Engine, j: Ideal) { Struct(e) && Match(e, j) && BooksExact(e.books, e.log) && Queued(e) }

  lemma QueuedKept(e: Engine, i: nat, r: OrderRec, e': Engine)
    requires Queued(e) && i < |e.reg.slots| && e'.reg.slots == e.reg.slots[i := r] && e'.scratch == e.scratch
    requires r.state != Canceled && r.state != Filled
    ensures Queued(e')
  {
  }

  lemma SameFills(fills: seq<Fill>, j: Ideal, c: nat, l: Life)
    requires FillsMatch(fills, j) && c in j && l.rec.filled == j[c].rec.filled
    ensures FillsMatch(fills, j[c := l])
  {
  }

  // The slot of order c is rewritten, with its life.
  lemma MatchRewritten(e: Engine, i: nat, r: OrderRec, e': Engine, j: Ideal, l: Life)
    requires CidIndex(e.reg, e.cidSeq) && i < |e.reg.slots| && e.reg.slots[i].state != Free
    requires RecsMatch(e.reg, j) && DisplayedMatch(e.pending, e.reg.slots, j) && ListedMatch(e.byMarket, e.reg, j)
    requires e'.reg.slots == e.reg.slots[i := r] && e'.reg.byCid == e.reg.byCid && e'.byMarket == e.byMarket
    requires r.cid == e.reg.slots[i].cid && r.market == e.reg.slots[i].market
    requires l.rec == r && l.displayed == j[r.cid].displayed && l.listed == j[r.cid].listed
    requires forall k | 0 <= k < |e'.pending| :: e'.pending[k] in e.pending
    ensures RecsMatch(e'.reg, j[r.cid := l]) && DisplayedMatch(e'.pending, e'.reg.slots, j[r.cid := l])
    ensures ListedMatch(e'.byMarket, e'.reg, j[r.cid := l])
  {
    var j' := j[r.cid := l];
    forall k | 0 <= k < |e'.pending|
      ensures e'.pending[k].idx < |e'.reg.slots|
      ensures e'.reg.slots[e'.pending[k].idx].cid in j'
      ensures j'[e'.reg.slots[e'.pending[k].idx].cid].displayed == e'.pending[k].displayed
    {
      var a :| 0 <= a < |e.pending| && e.pending[a] == e'.pending[k];
    }
  }

  // The slot of order c is recycled; its life is over.
  lemma MatchRecycled(e: Engine, i: nat, e': Engine, j: Ideal, l: Life)
    requires CidIndex(e.reg, e.cidSeq) && i < |e.reg.slots| && e.reg.slots[i].state != Free
    requires RecsMatch(e.reg, j) && DisplayedMatch(e.pending, e.reg.slots, j) && ListedMatch(e.byMarket, e.reg, j)
    requires var r := e.reg.slots[i];
      e'.reg.slots == e.reg.slots[i := r.(state := Free)] && e'.reg.byCid == e.reg.byCid - {r.cid} && IsTerminal(l.rec.state)
      && l.displayed == j[r.cid].displayed
    requires e'.byMarket == e.byMarket && e'.pending == e.pending
    ensures var j' := j[e.reg.slots[i].cid := l];
      RecsMatch(e'.reg, j') && DisplayedMatch(e'.pending, e'.reg.slots, j') && ListedMatch(e'.byMarket, e'.reg, j')
  {
  }

  // ---------------------------------------------------------------- activation loop

  lemma ActivateRefines(e: Engine, k: nat, now: nat, j: Ideal)
    requires Refines(e, j) && k < |e.pending| && now >= e.reg.slots[e.pending[k].idx].activeTs
    ensures var c := e.reg.slots[e.pending[k].idx].cid;
      c in j && Refines(ActivateAt(e, k), j[c := Activated(e.cfg.track, j[c], now)])
  {
    var i := e.pending[k].idx;
    var c := e.reg.slots[i].cid;
    assert Idxs(e.pending)[k] == i && i in Idxs(e.pending);
    assert c in e.reg.byCid && e.reg.byCid[c] == i;
    ActivateStruct(e, k);
    ActivateFrame(e, k);
    ActivateLife(e, k, now, j);
    ActivateMatch(e, k, ActivateAt(e, k), j, Activated(e.cfg.track, j[c], now), now);
  }

  // The slot becomes what the life becomes.
  lemma ActivateLife(e: Engine, k: nat, now: nat, j: Ideal)
    requires Struct(e) && RecsMatch(e.reg, j) && DisplayedMatch(e.pending, e.reg.slots, j)
    requires k < |e.pending| && now >= e.reg.slots[e.pending[k].idx].activeTs
    ensures var e', i := ActivateAt(e, k), e.pending[k].idx;
      && i < |e.reg.slots| && e.reg.slots[i].state == PendingNew && e.reg.slots[i].cid in j
      && e'.reg.slots == e.reg.slots[i := Activated(e.cfg.track, j[e.reg.slots[i].cid], now).rec] && e'.reg.byCid == e.reg.byCid
      && e'.pending == SwapOut(e.pending, k)
  {
    var i := e.pending[k].idx;
    assert Idxs(e.pending)[k] == i && i in Idxs(e.pending);
    assert e.reg.slots[i].cid in e.reg.byCid;
    ActivateSlots(e, k);
    assert Activated(e.cfg.track, j[e.reg.slots[i].cid], now).rec == Opened(e, k);
  }

  lemma ActivatedState(track: Track, l: Life, now: nat)
    requires l.rec.state == PendingNew
    ensures var r := Activated(track, l, now).rec; r.state != Canceled && r.state != Filled && r.state != Free
  {
  }

  lemma ActivateMatch(e: Engine, k: nat, e': Engine, j: Ideal, l: Life, now: nat)
    requires CidIndex(e.reg, e.cidSeq) && Match(e, j) && Queued(e) && k < |e.pending|
    requires var i := e.pending[k].idx;
      && i < |e.reg.slots| && e.reg.slots[i].state == PendingNew
      && e'.reg.slots == e.reg.slots[i := l.rec] && e'.reg.byCid == e.reg.byCid
      && e.reg.slots[i].cid in j && l == Activated(e.cfg.track, j[e.reg.slots[i].cid], now)
    requires e'.pending == SwapOut(e.pending, k) && e'.scratch == e.scratch && e'.log == e.log
    requires e'.byMarket == e.byMarket && e'.cidSeq == e.cidSeq
    ensures Match(e', j[l.rec.cid := l]) && Queued(e')
  {
    var i := e.pending[k].idx;
    assert e.reg.slots[i].cid in e.reg.byCid && j[e.reg.slots[i].cid].rec == e.reg.slots[i];
    ActivatedState(e.cfg.track, j[e.reg.slots[i].cid], now);
    SwapOutMembers(e.pending, k);
    MatchRewritten(e, i, l.rec, e', j, l);
    SameFills(e.log + e.scratch, j, l.rec.cid, l);
    QueuedKept(e, i, l.rec, e');
  }

  lemma ActivateFrame(e: Engine, k: nat)
    requires Indexed(e) && k < |e.pending|
    ensures var e' := ActivateAt(e, k);
      && e'.scratch == e.scratch && e'.log == e.log
      && e'.pending == SwapOut(e.pending, k)
      && e'.ineligible == e.ineligible + (if Eligible(e.cfg.track, e.pending[k].displayed) then 0 else 1)
      && e'.byMarket == e.byMarket && e'.cidSeq == e.cidSeq && e'.cfg == e.cfg && e'.canceling == e.canceling
  {
  }

  // When nothing on the pending list is due, no order is.
  lemma NothingDue(e: Engine, now: nat, j: Ideal)
    requires RecsMatch(e.reg, j) && Holds(Idxs(e.pending), e.reg.slots, PendingSlots)
    requires forall a | 0 <= a < |e.pending| :: e.pending[a].idx < |e.reg.slots| && now < e.reg.slots[e.pending[a].idx].activeTs
    ensures ActivateAll(e.cfg.track, j, now) == j
  {
    forall c | c in j ensures Activated(e.cfg.track, j[c], now) == j[c] {
      if j[c].rec.state == PendingNew {
        var i := e.reg.byCid[c];
        assert i in Idxs(e.pending);
        var a :| 0 <= a < |e.pending| && Idxs(e.pending)[a] == i;
      }
    }
  }

  lemma ActivateAgain(track: Track, j: Ideal, c: nat, now: nat)
    requires c in j
    ensures ActivateAll(track, j[c := Activated(track, j[c], now)], now) == ActivateAll(track, j, now)
  {
  }

  ghost predicate NotDueBelow(e: Engine, k: nat, now: nat)
    requires Indexed(e) && k <= |e.pending|
  {
    forall a | 0 <= a < k :: now < e.reg.slots[e.pending[a].idx].activeTs
  }

  lemma ActivateStep(e: Engine, k: nat, now: nat, j: Ideal) returns (j1: Ideal)
    requires Refines(e, j) && k < |e.pending| && NotDueBelow(e, k, now) && now >= e.reg.slots[e.pending[k].idx].activeTs
    ensures Refines(ActivateAt(e, k), j1) && NotDueBelow(ActivateAt(e, k), k, now)
    ensures ActivateAll(e.cfg.track, j1, now) == ActivateAll(e.cfg.track, j, now)
    ensures ActivateAt(e, k).cfg == e.cfg && ActivateAt(e, k).scratch == e.scratch
  {
    var c := e.reg.slots[e.pending[k].idx].cid;
    ActivateRefines(e, k, now, j);
    j1 := j[c := Activated(e.cfg.track, j[c], now)];
    ActivateAgain(e.cfg.track, j, c, now);
    ActivateFrame(e, k);
    EarlierPending(e, k, now);
  }

  lemma {:induction false} ActivateLoop(e: Engine, k: nat, now: nat, j: Ideal)
    requires Refines(e, j) && k <= |e.pending| && NotDueBelow(e, k, now)
    ensures Refines(ActivateDue(e, k, now), ActivateAll(e.cfg.track, j, now))
    ensures ActivateDue(e, k, now).cfg == e.cfg && ActivateDue(e, k, now).scratch == e.scratch
    decreases |e.pending| - k
  {
    if k == |e.pending| {
      NothingDue(e, now, j);
    } else if now >= e.reg.slots[e.pending[k].idx].activeTs {
      var j1 := ActivateStep(e, k, now, j);
      ActivateLoop(ActivateAt(e, k), k, now, j1);
      assert ActivateDue(e, k, now) == ActivateDue(ActivateAt(e, k), k, now);
    } else {
      ActivateLoop(e, k + 1, now, j);
    }
  }

  lemma EarlierPending(e: Engine, k: nat, now: nat)
    requires Indexed(e) && GaugeExact(e.reg.slots, e.reg.gauge) && Holds(Idxs(e.pending), e.reg.slots, PendingSlots)
    requires k < |e.pending| && NotDueBelow(e, k, now)
    ensures NotDueBelow(ActivateAt(e, k), k, now)
  {
    var i := e.pending[k].idx;
    WaitsAt(e, k);
    ActivateSlots(e, k);
    ActivateFrame(e, k);
    forall a | 0 <= a < k ensures ActivateAt(e, k).pending[a] == e.pending[a] && e.pending[a].idx != i {
      assert Idxs(e.pending)[a] != Idxs(e.pending)[k];
    }
  }

  // ---------------------------------------------------------------- cancel sweep

  lemma RetireRefines(e: Engine, i: nat, to: OrdState, j: Ideal)
    requires Refines(e, j) && i < |e.reg.slots| && IsLive(e.reg.slots[i].state)
    requires LegalTransition(e.reg.slots[i].state, to) && IsTerminal(to) && to != Filled
    ensures var c := e.reg.slots[i].cid;
      c in j && Refines(Retire(e, i, to), j[c := j[c].(rec := j[c].rec.(state := to))])
  {
    var c, e' := e.reg.slots[i].cid, Retire(e, i, to);
    assert c in e.reg.byCid && e.reg.byCid[c] == i;
    RetireStruct(e, i, to);
    RetireFrame(e, i, to);
    RetireSlots(e, i, to);
    RetireMatch(e, i, to, e', j);
  }

  lemma RetireMatch(e: Engine, i: nat, to: OrdState, e': Engine, j: Ideal)
    requires CidIndex(e.reg, e.cidSeq) && Match(e, j) && Queued(e) && i < |e.reg.slots| && IsLive(e.reg.slots[i].state)
    requires IsTerminal(to) && e'.cidSeq == e.cidSeq && e'.byMarket == e.byMarket && e'.pending == e.pending && e'.log == e.log && e'.scratch == e.scratch
    requires e'.reg.slots == e.reg.slots[i := e.reg.slots[i].(state := Free)] && e'.reg.byCid == e.reg.byCid - {e.reg.slots[i].cid}
    ensures Queued(e')
    ensures var c := e.reg.slots[i].cid; c in j && Match(e', j[c := j[c].(rec := j[c].rec.(state := to))])
  {
    var c := e.reg.slots[i].cid;
    assert c in e.reg.byCid && e.reg.byCid[c] == i;
    var l := j[c].(rec := j[c].rec.(state := to));
    MatchRecycled(e, i, e', j, l);
    SameFills(e.log + e.scratch, j, c, l);
    QueuedKept(e, i, e.reg.slots[i].(state := Free), e');
  }

  lemma RetireFrame(e: Engine, i: nat, to: OrdState)
    requires Indexed(e) && i < |e.reg.slots|
    ensures var e' := Retire(e, i, to);
      && e'.scratch == e.scratch && e'.log == e.log
      && e'.cidSeq == e.cidSeq && e'.cfg == e.cfg && e'.pending == e.pending && e'.byMarket == e.byMarket
  {
  }

  lemma NoCancelDue(e: Engine, now: nat, j: Ideal)
    requires RecsMatch(e.reg, j) && CancelsListed(e.canceling, e.reg.slots)
    requires forall a | 0 <= a < |e.canceling| :: e.canceling[a] < |e.reg.slots| && !CancelDue(e.reg.slots[e.canceling[a]], now)
    ensures SweepAll(j, now) == j
  {
    forall c | c in j ensures Swept(j[c], now) == j[c] {
      if j[c].rec.state == PendingCancel {
        var i := e.reg.byCid[c];
        assert AwaitsCancel(e.reg.slots[i]);
        var a :| 0 <= a < |e.canceling| && e.canceling[a] == i;
      }
    }
  }

  lemma SweepAgain(j: Ideal, c: nat, now: nat)
    requires c in j
    ensures SweepAll(j[c := Swept(j[c], now)], now) == SweepAll(j, now)
  {
  }

  lemma DropListed(e: Engine, k: nat, e': Engine)
    requires Struct(e) && k < |e.canceling| && !AwaitsCancel(e.reg.slots[e.canceling[k]])
    requires e' == e.(canceling := SwapOut(e.canceling, k))
    ensures Struct(e')
  {
    SwapOutMembers(e.canceling, k);
  }

  lemma DropEntry(e: Engine, k: nat, j: Ideal, e': Engine)
    requires Refines(e, j) && k < |e.canceling| && !AwaitsCancel(e.reg.slots[e.canceling[k]])
    requires e' == e.(canceling := SwapOut(e.canceling, k))
    ensures Refines(e', j)
  {
    DropListed(e, k, e');
    assert Match(e', j) && Queued(e');
  }

  ghost predicate NoCancelDueBelow(e: Engine, k: nat, now: nat)
    requires Indexed(e) && k <= |e.canceling|
  {
    forall a | 0 <= a < k :: !CancelDue(e.reg.slots[e.canceling[a]], now)
  }

  lemma BelowKept(e: Engine, k: nat, now: nat, e': Engine)
    requires Indexed(e) && k < |e.canceling| && NoCancelDueBelow(e, k, now)
    requires Indexed(e') && e'.canceling == SwapOut(e.canceling, k) && |e'.reg.slots| == |e.reg.slots|
    requires forall x | 0 <= x < |e.reg.slots| :: e'.reg.slots[x] == e.reg.slots[x] || e'.reg.slots[x].state == Free
    ensures NoCancelDueBelow(e', k, now)
  {
  }

  // The cancel lands.
  lemma CancelLands(e: Engine, i: nat, now: nat, j: Ideal, e1: Engine, j1: Ideal)
    requires Refines(e, j) && i < |e.reg.slots| && CancelDue(e.reg.slots[i], now) && e1 == Retire(e, i, Canceled)
    requires var c := e.reg.slots[i].cid; c in j && j1 == j[c := j[c].(rec := j[c].rec.(state := Canceled))]
    ensures Refines(e1, j1) && SweepAll(j1, now) == SweepAll(j, now)
    ensures e1.reg.slots == e.reg.slots[i := e.reg.slots[i].(state := Free)]
    ensures e1.cfg == e.cfg && e1.scratch == e.scratch && e1.canceling == e.canceling
  {
    var c := e.reg.slots[i].cid;
    RetireRefines(e, i, Canceled, j);
    RetireSlots(e, i, Canceled);
    RetireFrame(e, i, Canceled);
    assert c in e.reg.byCid && e.reg.byCid[c] == i && j[c].rec == e.reg.slots[i];
    SweepAgain(j, c, now);
    assert j1[c] == Swept(j[c], now);
  }

  // What one step of the sweep keeps; j1 is where it leads.
  ghost predicate Sweeps(e: Engine, k: nat, now: nat, j: Ideal, e': Engine, j1: Ideal) {
    && Refines(e', j1) && k <= |e'.canceling| && NoCancelDueBelow(e', k, now)
    && SweepAll(j1, now) == SweepAll(j, now) && |e'.canceling| == |e.canceling| - 1
    && e'.cfg == e.cfg && e'.scratch == e.scratch
  }

  lemma CanceledStep(e: Engine, k: nat, now: nat, j: Ideal, e1: Engine, e': Engine, j1: Ideal)
    requires Refines(e, j) && k < |e.canceling| && NoCancelDueBelow(e, k, now) && CancelDue(e.reg.slots[e.canceling[k]], now)
    requires e1 == Retire(e, e.canceling[k], Canceled) && e' == e1.(canceling := SwapOut(e.canceling, k))
    requires var c := e.reg.slots[e.canceling[k]].cid; c in j && j1 == j[c := j[c].(rec := j[c].rec.(state := Canceled))]
    ensures Sweeps(e, k, now, j, e', j1)
  {
    CancelLands(e, e.canceling[k], now, j, e1, j1);
    AfterCancel(e, k, now, j, e1, e', j1);
  }

  lemma AfterCancel(e: Engine, k: nat, now: nat, j: Ideal, e1: Engine, e': Engine, j1: Ideal)
    requires Indexed(e) && k < |e.canceling| && NoCancelDueBelow(e, k, now) && e' == e1.(canceling := SwapOut(e.canceling, k))
    requires Refines(e1, j1) && SweepAll(j1, now) == SweepAll(j, now)
    requires e1.reg.slots == e.reg.slots[e.canceling[k] := e.reg.slots[e.canceling[k]].(state := Free)]
    requires e1.cfg == e.cfg && e1.scratch == e.scratch && e1.canceling == e.canceling
    ensures Sweeps(e, k, now, j, e', j1)
  {
    DropEntry(e1, k, j1, e');
    BelowKept(e, k, now, e');
  }

  lemma StaleStep(e: Engine, k: nat, now: nat, j: Ideal, e': Engine)
    requires Refines(e, j) && k < |e.canceling| && NoCancelDueBelow(e, k, now)
    requires SweepDone(e.reg.slots[e.canceling[k]], now) && !CancelDue(e.reg.slots[e.canceling[k]], now)
    requires e' == e.(canceling := SwapOut(e.canceling, k))
    ensures Sweeps(e, k, now, j, e', j)
  {
    DropEntry(e, k, j, e');
    BelowKept(e, k, now, e');
  }

  lemma InTable(e: Engine, i: nat, j: Ideal)
    requires CidIndex(e.reg, e.cidSeq) && RecsMatch(e.reg, j) && i < |e.reg.slots| && e.reg.slots[i].state != Free
    ensures e.reg.slots[i].cid in j
  {
    assert e.reg.slots[i].cid in e.reg.byCid;
  }

  lemma SweepStep(e: Engine, k: nat, now: nat, j: Ideal) returns (j1: Ideal)
    requires Refines(e, j) && k < |e.canceling| && NoCancelDueBelow(e, k, now) && SweepDone(e.reg.slots[e.canceling[k]], now)
    ensures Sweeps(e, k, now, j, SweepAt(e, k, now), j1)
  {
    var i := e.canceling[k];
    if CancelDue(e.reg.slots[i], now) {
      var c := e.reg.slots[i].cid;
      InTable(e, i, j);
      j1 := j[c := j[c].(rec := j[c].rec.(state := Canceled))];
      CanceledStep(e, k, now, j, Retire(e, i, Canceled), SweepAt(e, k, now), j1);
    } else {
      j1 := j;
      StaleStep(e, k, now, j, SweepAt(e, k, now));
    }
  }

  lemma NotDueHere(e: Engine, k: nat, now: nat)
    requires Indexed(e) && k < |e.canceling| && NoCancelDueBelow(e, k, now) && !SweepDone(e.reg.slots[e.canceling[k]], now)
    ensures NoCancelDueBelow(e, k + 1, now)
  {
  }

  lemma {:induction false} SweepLoop(e: Engine, k: nat, now: nat, j: Ideal, e': Engine)
    requires Refines(e, j) && k <= |e.canceling| && NoCancelDueBelow(e, k, now) && e' == SweepDue(e, k, now)
    ensures Refines(e', SweepAll(j, now)) && e'.cfg == e.cfg && e'.scratch == e.scratch
    decreases |e.canceling| - k
  {
    if k == |e.canceling| {
      NoCancelDue(e, now, j);
    } else if SweepDone(e.reg.slots[e.canceling[k]], now) {
      var j1 := SweepStep(e, k, now, j);
      SweepLoop(SweepAt(e, k, now), k, now, j1, e');
    } else {
      NotDueHere(e, k, now);
      SweepLoop(e, k + 1, now, j, e');
    }
  }

  lemma AdvanceRefines(e: Engine, now: nat, j: Ideal)
    requires Refines(e, j)
    ensures Refines(Advance(e, now), AdvanceAll(e.cfg.track, j, now))
    ensures Advance(e, now).cfg == e.cfg && Advance(e, now).scratch == e.scratch
  {
    ActivateLoop(e, 0, now, j);
    SweepLoop(ActivateDue(e, 0, now), 0, now, ActivateAll(e.cfg.track, j, now), Advance(e, now));
  }

  // ---------------------------------------------------------------- one print

  // The fill a print produces for the order at open[k], if any.
  ghost predicate Fills(e: Engine, k: nat, p: Print)
    requires Indexed(e) && k < |e.open|
  {
    var r := e.reg.slots[e.open[k]];
    Reaches(r, p) && FillQty(e.cfg.track, r, p) > 0
  }

  function FillOf(e: Engine, k: nat, p: Print): Fill
    requires Indexed(e) && k < |e.open|
  {
    var r := e.reg.slots[e.open[k]];
    Fill(r.cid, e.open[k], p.market, r.price, FillQty(e.cfg.track, r, p), r.buyYes, p.ts)
  }

  lemma HitFrame(e: Engine, k: nat, p: Print)
    requires Indexed(e) && k < |e.open| && p.market < |e.books|
    ensures var e', f := HitAt(e, k, p), FillOf(e, k, p);
      e' == e.(reg := e'.reg, open := e'.open, scratch := if Fills(e, k, p) then e.scratch + [f] else e.scratch)
  {
  }

  lemma NewFill(fills: seq<Fill>, j: Ideal, f: Fill, l: Life)
    requires FillsMatch(fills, j) && f.cid in j && f.qty > 0 && l.rec.filled == j[f.cid].rec.filled + f.qty
    ensures FillsMatch(fills + [f], j[f.cid := l])
  {
    forall c ensures FilledQty(fills + [f], c) == if c in j[f.cid := l] then j[f.cid := l][c].rec.filled else 0 {
      QtyPush(fills, f, c);
    }
  }

  // What a print does to a record does not depend on the rest of the life.
  lemma HitLife(track: Track, r: OrderRec, l: Life, p: Print)
    requires l.rec == r
    ensures Hit(track, l, p) == l.(rec := Hit(track, Life(r, 0, false), p).rec)
    ensures Hit(track, l, p).rec.cid == r.cid
  {
  }

  lemma HitRefines(e: Engine, k: nat, p: Print, j: Ideal)
    requires Refines(e, j) && k < |e.open| && p.market < |e.books|
    ensures var c := e.reg.slots[e.open[k]].cid;
      c in j && Refines(HitAt(e, k, p), j[c := Hit(e.cfg.track, j[c], p)])
  {
    var i := e.open[k];
    assert i in e.open;
    var c := e.reg.slots[i].cid;
    assert c in e.reg.byCid && e.reg.byCid[c] == i;
    HitLife(e.cfg.track, e.reg.slots[i], j[c], p);
    HitStruct(e, k, p);
    HitSlots(e, k, p);
    HitFrame(e, k, p);
    var e', l := HitAt(e, k, p), Hit(e.cfg.track, j[c], p);
    assert e'.reg.slots == e.reg.slots[i := l.rec];
    HitMatch(e, k, p, e', j, l);
  }

  // The hit order's record and life change together.
  lemma HitRecs(e: Engine, i: nat, e': Engine, j: Ideal, l: Life)
    requires CidIndex(e.reg, e.cidSeq) && RecsMatch(e.reg, j) && DisplayedMatch(e.pending, e.reg.slots, j) && ListedMatch(e.byMarket, e.reg, j)
    requires i < |e.reg.slots| && e.reg.slots[i].state != Free && e.reg.slots[i].cid in j
    requires var was := j[e.reg.slots[i].cid];
      l.rec.cid == e.reg.slots[i].cid && l.rec.market == e.reg.slots[i].market && l.displayed == was.displayed && l.listed == was.listed
    requires e'.reg.slots == e.reg.slots[i := l.rec] && e'.reg.byCid == e.reg.byCid && e'.byMarket == e.byMarket && e'.pending == e.pending
    ensures var j' := j[e.reg.slots[i].cid := l];
      RecsMatch(e'.reg, j') && DisplayedMatch(e'.pending, e'.reg.slots, j') && ListedMatch(e'.byMarket, e'.reg, j')
  {
    MatchRewritten(e, i, l.rec, e', j, l);
  }

  lemma HitMatch(e: Engine, k: nat, p: Print, e': Engine, j: Ideal, l: Life)
    requires Indexed(e) && CidIndex(e.reg, e.cidSeq) && Match(e, j) && Queued(e) && k < |e.open|
    requires var i, f := e.open[k], FillOf(e, k, p); var c := e.reg.slots[i].cid;
      && IsLive(e.reg.slots[i].state) && c in j && j[c].rec == e.reg.slots[i] && l == Hit(e.cfg.track, j[c], p)
      && e'.reg.slots == e.reg.slots[i := l.rec] && e'.reg.byCid == e.reg.byCid
      && e' == e.(reg := e'.reg, open := e'.open, scratch := if Fills(e, k, p) then e.scratch + [f] else e.scratch)
    ensures Match(e', j[e.reg.slots[e.open[k]].cid := l]) && Queued(e')
  {
    var i := e.open[k];
    HitKeepsOrder(e.cfg.track, j[e.reg.slots[i].cid], p);
    HitRecs(e, i, e', j, l);
    if Fills(e, k, p) { FilledHit(e, k, p, e', j, l); } else { UnfilledHit(e, k, p, e', j, l); }
  }

  // A print does not change what the order is.
  lemma HitKeepsOrder(track: Track, l: Life, p: Print)
    ensures var h := Hit(track, l, p);
      h.rec.cid == l.rec.cid && h.rec.market == l.rec.market && h.displayed == l.displayed && h.listed == l.listed
  {
  }

  lemma FilledHit(e: Engine, k: nat, p: Print, e': Engine, j: Ideal, l: Life)
    requires Indexed(e) && Queued(e) && FillsMatch(e.log + e.scratch, j) && k < |e.open| && Fills(e, k, p)
    requires var i := e.open[k]; var c := e.reg.slots[i].cid;
      && IsLive(e.reg.slots[i].state) && c in j && j[c].rec == e.reg.slots[i] && l == Hit(e.cfg.track, j[c], p)
      && e'.reg.slots == e.reg.slots[i := l.rec] && e'.scratch == e.scratch + [FillOf(e, k, p)]
    ensures FillsMatch(e.log + e'.scratch, j[e.reg.slots[e.open[k]].cid := l]) && Queued(e')
  {
    var i, f := e.open[k], FillOf(e, k, p);
    assert e.log + (e.scratch + [f]) == (e.log + e.scratch) + [f];
    NewFill(e.log + e.scratch, j, f, l);
    NewlyQueued(e, i, l.rec, e', f);
  }

  lemma UnfilledHit(e: Engine, k: nat, p: Print, e': Engine, j: Ideal, l: Life)
    requires Indexed(e) && Queued(e) && FillsMatch(e.log + e.scratch, j) && k < |e.open| && !Fills(e, k, p)
    requires var i := e.open[k]; var c := e.reg.slots[i].cid;
      && IsLive(e.reg.slots[i].state) && c in j && j[c].rec == e.reg.slots[i] && l == Hit(e.cfg.track, j[c], p)
      && e'.reg.slots == e.reg.slots[i := l.rec] && e'.scratch == e.scratch
    ensures FillsMatch(e.log + e.scratch, j[e.reg.slots[e.open[k]].cid := l]) && Queued(e')
  {
    SameFills(e.log + e.scratch, j, e.reg.slots[e.open[k]].cid, l);
    QueuedKept(e, e.open[k], l.rec, e');
  }

  lemma NewlyQueued(e: Engine, i: nat, r: OrderRec, e': Engine, f: Fill)
    requires Queued(e) && i < |e.reg.slots| && e'.reg.slots == e.reg.slots[i := r] && e'.scratch == e.scratch + [f]
    requires f.idx == i && r.state != Canceled
    ensures Queued(e')
  {
    assert e'.scratch[|e.scratch|].idx == i;
    forall x | 0 <= x < |e'.reg.slots| && x != i && e'.reg.slots[x].state == Filled
      ensures exists k | 0 <= k < |e'.scratch| :: e'.scratch[k].idx == x
    {
      var k :| 0 <= k < |e.scratch| && e.scratch[k].idx == x;
      assert e'.scratch[k].idx == x;
    }
  }

  // The ids of the orders from position k of the open list on.
  ghost function CidsFrom(e: Engine, k: nat): set<nat>
    requires Indexed(e)
  {
    set a | k <= a < |e.open| :: e.reg.slots[e.open[a]].cid
  }

  // The print applied to some of the orders.
  function HitSome(track: Track, j: Ideal, who: set<nat>, p: Print): Ideal {
    map c | c in j :: if c in who then Hit(track, j[c], p) else j[c]
  }

  lemma HitOneMore(track: Track, j: Ideal, who: set<nat>, c: nat, p: Print)
    requires c in j && c in who
    ensures HitSome(track, j[c := Hit(track, j[c], p)], who - {c}, p) == HitSome(track, j, who, p)
  {
  }

  lemma DistinctCids(e: Engine, k: nat)
    requires Struct(e) && k < |e.open|
    ensures forall a | 0 <= a < |e.open| && a != k :: e.reg.slots[e.open[a]].cid != e.reg.slots[e.open[k]].cid
    ensures e.reg.slots[e.open[k]].cid in CidsFrom(e, k)
  {
    forall a | 0 <= a < |e.open| && a != k ensures e.reg.slots[e.open[a]].cid != e.reg.slots[e.open[k]].cid {
      assert e.open[a] in e.open && e.open[k] in e.open && e.open[a] != e.open[k];
    }
  }

  // Moving past position k, or swapping it out, takes one id off the rest.
  lemma CidsAfter(e: Engine, k: nat, e': Engine)
    requires Indexed(e) && k < |e.open| && Indexed(e')
    requires |e'.reg.slots| == |e.reg.slots| && forall i | 0 <= i < |e.reg.slots| :: e'.reg.slots[i].cid == e.reg.slots[i].cid
    requires forall a | 0 <= a < |e.open| && a != k :: e.reg.slots[e.open[a]].cid != e.reg.slots[e.open[k]].cid
    ensures e'.open == e.open ==> CidsFrom(e', k + 1) == CidsFrom(e, k) - {e.reg.slots[e.open[k]].cid}
    ensures e'.open == SwapOut(e.open, k) ==> CidsFrom(e', k) == CidsFrom(e, k) - {e.reg.slots[e.open[k]].cid}
  {
    if e'.open == SwapOut(e.open, k) {
      var c, n := e.reg.slots[e.open[k]].cid, |e.open| - 1;
      forall x | x in CidsFrom(e, k) - {c} ensures x in CidsFrom(e', k) {
        var a :| k <= a < |e.open| && e.reg.slots[e.open[a]].cid == x;
        assert if a == n then e'.open[k] == e.open[n] else e'.open[a] == e.open[a];
      }
      forall x | x in CidsFrom(e', k) ensures x in CidsFrom(e, k) - {c} {
        var a :| k <= a < |e'.open| && e'.reg.slots[e'.open[a]].cid == x;
        assert e'.open[a] == if a == k then e.open[n] else e.open[a];
      }
    }
  }

  // The order hit leaves the list of those still to come; the others stay on it.
  lemma HitLeavesRest(e: Engine, k: nat, p: Print, j: Ideal)
    requires Struct(e) && RecsMatch(e.reg, j) && k < |e.open| && p.market < |e.books|
    ensures var e', c := HitAt(e, k, p), e.reg.slots[e.open[k]].cid;
      && e'.cfg == e.cfg && c in j
      && HitSome(e.cfg.track, j[c := Hit(e.cfg.track, j[c], p)], CidsFrom(e', if |e'.open| < |e.open| then k else k + 1), p)
         == HitSome(e.cfg.track, j, CidsFrom(e, k), p)
  {
    var i := e.open[k];
    var c := e.reg.slots[i].cid;
    assert i in e.open && c in e.reg.byCid && e.reg.byCid[c] == i;
    HitSlots(e, k, p);
    HitFrame(e, k, p);
    DistinctCids(e, k);
    HitLife(e.cfg.track, e.reg.slots[i], j[c], p);
    CidsAfter(e, k, HitAt(e, k, p));
    HitOneMore(e.cfg.track, j, CidsFrom(e, k), c, p);
  }

  lemma HitStep(e: Engine, k: nat, p: Print, j: Ideal) returns (j1: Ideal)
    requires Refines(e, j) && k < |e.open| && p.market < |e.books|
    ensures var e', who := HitAt(e, k, p), CidsFrom(e, k);
      && Refines(e', j1) && e'.cfg == e.cfg
      && HitSome(e.cfg.track, j1, CidsFrom(e', if |e'.open| < |e.open| then k else k + 1), p) == HitSome(e.cfg.track, j, who, p)
  {
    var c := e.reg.slots[e.open[k]].cid;
    HitRefines(e, k, p, j);
    HitLeavesRest(e, k, p, j);
    j1 := j[c := Hit(e.cfg.track, j[c], p)];
  }

  lemma {:induction false} HitLoop(e: Engine, k: nat, p: Print, j: Ideal)
    requires Refines(e, j) && k <= |e.open| && p.market < |e.books|
    ensures Refines(HitFrom(e, k, p), HitSome(e.cfg.track, j, CidsFrom(e, k), p))
    ensures HitFrom(e, k, p).cfg == e.cfg
    decreases |e.open| - k
  {
    if k == |e.open| {
      assert HitSome(e.cfg.track, j, CidsFrom(e, k), p) == j;
    } else {
      var e1 := HitAt(e, k, p);
      var j1 := HitStep(e, k, p, j);
      var k1 := if |e1.open| < |e.open| then k else k + 1;
      HitLoop(e1, k1, p, j1);
      assert HitFrom(e, k, p) == HitFrom(e1, k1, p);
    }
  }

  lemma HitEveryone(e: Engine, p: Print, j: Ideal)
    requires Struct(e) && RecsMatch(e.reg, j)
    ensures HitSome(e.cfg.track, j, CidsFrom(e, 0), p) == HitAll(e.cfg.track, j, p)
  {
    forall c | c in j && IsLive(j[c].rec.state) ensures c in CidsFrom(e, 0) {
      var i := e.reg.byCid[c];
      assert i in e.open;
      var a :| 0 <= a < |e.open| && e.open[a] == i;
      assert e.reg.slots[e.open[a]].cid in CidsFrom(e, 0);
    }
  }
}
