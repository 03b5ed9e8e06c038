/**
 Where the fills handed to the ledger come from: each is one print of the tape against
 one order that was working when the print came.
 */
module FillLog {

  import opened Orders
  import opened Lists
  import opened Ledger
  import opened Engine
  import opened Refinement
  import opened ShadowRuns
  import opened ShadowTheorems
  import opened Tracks

  // ---------------------------------------------------------------- one print

  // f is what print p gives the order in f's slot, in the state the print finds.
  ghost predicate FromPrint(e: Engine, p: Print, f: Fill) {
    && f.idx < |e.reg.slots|
    && var r := e.reg.slots[f.idx];
       && IsLive(r.state) && InWindow(r, p.ts) && Crosses(r, p.price, p.takerYes)
       && f.cid == r.cid && f.market == r.market == p.market && f.price == r.price && f.buyYes == r.buyYes
       && f.ts == p.ts && 0 < f.qty == FillQty(e.cfg.track, r, p) <= r.Remaining()
  }

  ghost predicate AllFromPrint(e: Engine, p: Print, fills: seq<Fill>) {
    forall i | 0 <= i < |fills| :: FromPrint(e, p, fills[i])
  }

  // The orders still to be looked at are as the print found them.
  ghost predicate Untouched(e0: Engine, e: Engine, k: nat)
    requires Indexed(e) && |e0.reg.slots| == |e.reg.slots|
  {
    && e.cfg == e0.cfg && Distinct(e.open)
    && (forall a | k <= a < |e.open| ::
          IsLive(e0.reg.slots[e.open[a]].state) && e.reg.slots[e.open[a]] == e0.reg.slots[e.open[a]])
  }

  lemma HitUntouched(e0: Engine, e: Engine, k: nat, p: Print)
    requires Indexed(e) && |e0.reg.slots| == |e.reg.slots| && k < |e.open| && p.market < |e.books| && Untouched(e0, e, k)
    ensures var e' := HitAt(e, k, p); Untouched(e0, e', if |e'.open| < |e.open| then k else k + 1)
  {
    var e' := HitAt(e, k, p);
    if |e'.open| < |e.open| { SwapOutDistinct(e.open, k); }
    assert forall i | 0 <= i < |e.reg.slots| && i != e.open[k] :: e'.reg.slots[i] == e.reg.slots[i];
  }

  lemma HitFromPrint(e0: Engine, e: Engine, k: nat, p: Print)
    requires Indexed(e) && |e0.reg.slots| == |e.reg.slots| && k < |e.open| && p.market < |e.books| && Untouched(e0, e, k)
    requires AllFromPrint(e0, p, e.scratch)
    ensures AllFromPrint(e0, p, HitAt(e, k, p).scratch)
  {
  }

  lemma {:induction false} HitsFromPrint(e0: Engine, e: Engine, k: nat, p: Print)
    requires Indexed(e) && |e0.reg.slots| == |e.reg.slots| && k <= |e.open| && p.market < |e.books| && Untouched(e0, e, k)
    requires AllFromPrint(e0, p, e.scratch)
    ensures AllFromPrint(e0, p, HitFrom(e, k, p).scratch) && HitFrom(e, k, p).log == e.log
    decreases |e.open| - k
  {
    if k < |e.open| {
      var e1 := HitAt(e, k, p);
      HitUntouched(e0, e, k, p);
      HitFromPrint(e0, e, k, p);
      HitsFromPrint(e0, e1, if |e1.open| < |e.open| then k else k + 1, p);
    }
  }

  lemma DeliverOneLog(e: Engine)
    requires Indexed(e) && |e.scratch| > 0
    ensures DeliverOne(e).log == e.log + [e.scratch[0]] && DeliverOne(e).scratch == e.scratch[1..]
  {
  }

  lemma MoveOver(a: seq<Fill>, b: seq<Fill>)
    requires b != []
    ensures (a + [b[0]]) + b[1..] == a + b
  {
  }

  lemma {:induction false} DeliverLog(e: Engine)
    requires Indexed(e)
    ensures Deliver(e).log == e.log + e.scratch
    decreases |e.scratch|
  {
    if |e.scratch| > 0 {
      DeliverOneLog(e);
      DeliverLog(DeliverOne(e));
      MoveOver(e.log, e.scratch);
    }
  }

  // ---------------------------------------------------------------- nothing else fills

  lemma {:induction false} ActivateLog(e: Engine, k: nat, now: nat)
    requires Indexed(e) && k <= |e.pending|
    ensures ActivateDue(e, k, now).log == e.log
    decreases |e.pending| - k
  {
    if k < |e.pending| {
      if now >= e.reg.slots[e.pending[k].idx].activeTs { ActivateLog(ActivateAt(e, k), k, now); } else { ActivateLog(e, k + 1, now); }
    }
  }

  lemma {:induction false} SweepLog(e: Engine, k: nat, now: nat)
    requires Indexed(e) && k <= |e.canceling|
    ensures SweepDue(e, k, now).log == e.log
    decreases |e.canceling| - k
  {
    if k < |e.canceling| {
      if SweepDone(e.reg.slots[e.canceling[k]], now) { SweepLog(SweepAt(e, k, now), k, now); } else { SweepLog(e, k + 1, now); }
    }
  }

  lemma AdvanceLog(e: Engine, now: nat)
    requires Indexed(e)
    ensures Advance(e, now).log == e.log
  {
    ActivateLog(e, 0, now);
    SweepLog(ActivateDue(e, 0, now), 0, now);
  }

  lemma {:induction false} SettleLog(e: Engine, list: seq<nat>, n: nat, market: nat)
    requires Indexed(e) && Within(list, |e.reg.slots|) && n <= |list|
    ensures SettleFrom(e, list, n, market).log == e.log
    decreases |list| - n
  {
    if n < |list| { SettleLog(SettleOne(e, list[n], market), list, n + 1, market); }
  }

  lemma OtherStepLog(e: Engine, ev: Event)
    requires Indexed(e) && !(ev.Tape? && Named(ev, |e.books|))
    ensures Step(e, ev).log == e.log
  {
    if ev.Clock? {
      AdvanceLog(e, ev.now);
    } else if ev.Settlement? && Named(ev, |e.books|) {
      AdvanceLog(e, ev.ts);
      var a := Advance(e, ev.ts);
      SettleLog(a, Listed(a.byMarket, ev.market), 0, ev.market);
    }
  }

  lemma TapeLog(e: Engine, p: Print)
    requires Struct(e) && Struct(Advance(e, p.ts)) && e.scratch == [] && Advance(e, p.ts).scratch == [] && p.market < |e.books|
    ensures var log := Trade(e, p).log;
      |e.log| <= |log| && log[..|e.log|] == e.log && AllFromPrint(Advance(e, p.ts), p, log[|e.log|..])
  {
    var a := Advance(e, p.ts);
    AdvanceLog(e, p.ts);
    assert Untouched(a, a, 0) by { forall k | 0 <= k < |a.open| ensures IsLive(a.reg.slots[a.open[k]].state) { assert a.open[k] in a.open; } }
    HitsFromPrint(a, a, 0, p);
    DeliverLog(HitFrom(a, 0, p));
  }

  // ---------------------------------------------------------------- runs

  // Event i is a print, and f is what it gave the order that f names, which was working
  // when the clock had reached the print.
  ghost predicate FilledAt(cfg: Config, n: nat, evs: seq<Event>, i: nat, f: Fill) {
    i < |evs| && evs[i].Tape? && FromPrint(Run(cfg, n, evs[..i] + [Clock(evs[i].p.ts)]), evs[i].p, f)
  }

  // The log grows by the fills of a print, and by nothing else; a is the engine at the
  // time of the print.
  ghost predicate LogGrows(e: Engine, ev: Event, a: Engine)
    requires Indexed(e)
  {
    var log, log' := e.log, Step(e, ev).log;
    && |log| <= |log'| && log'[..|log|] == log
    && (ev.Tape? ==> AllFromPrint(a, ev.p, log'[|log|..])) && (!ev.Tape? ==> log' == log)
  }

  lemma StepLog(e: Engine, ev: Event, a: Engine)
    requires Struct(e) && e.scratch == []
    requires ev.Tape? ==> a == Advance(e, ev.p.ts) && Struct(a) && a.scratch == []
    ensures LogGrows(e, ev, a)
  {
    if ev.Tape? && Named(ev, |e.books|) {
      TapeLog(e, ev.p);
      assert Step(e, ev) == Trade(e, ev.p);
    } else {
      OtherStepLog(e, ev);
    }
  }

  lemma LastStepLog(cfg: Config, n: nat, evs: seq<Event>, ev: Event, now: nat, e: Engine, a: Engine)
    requires (ev.Tape? ==> now == ev.p.ts) && e == Run(cfg, n, evs) && a == Run(cfg, n, evs + [Clock(now)])
    ensures LogGrows(e, ev, a)
  {
    RunReady(cfg, n, evs);
    RunReady(cfg, n, evs + [Clock(now)]);
    ClockIs(cfg, n, evs, now);
    StepLog(e, ev, a);
  }

  lemma FilledEarlier(cfg: Config, n: nat, evs: seq<Event>, j: nat, i: nat, f: Fill)
    requires i < j <= |evs| && FilledAt(cfg, n, evs[..j], i, f)
    ensures FilledAt(cfg, n, evs, i, f)
  {
    assert evs[..j][..i] == evs[..i];
  }

  lemma FilledNow(cfg: Config, n: nat, evs: seq<Event>, ev: Event, f: Fill, e: Engine, a: Engine, k: nat)
    requires evs != [] && ev == evs[|evs| - 1] && e == Run(cfg, n, evs[..|evs| - 1])
    requires a == Run(cfg, n, evs[..|evs| - 1] + [Clock(if ev.Tape? then ev.p.ts else 0)])
    requires LogGrows(e, ev, a) && |e.log| <= k < |Step(e, ev).log| && f == Step(e, ev).log[k]
    ensures FilledAt(cfg, n, evs, |evs| - 1, f)
  {
    assert Step(e, ev).log[|e.log|..][k - |e.log|] == f;
  }

  /** Every fill in the ledger's log of every run comes from one print of the tape: at its
      time its order was working, in the print's market and inside [active,
      cancel-effective), the print crossed the order's price, and the fill carries that
      order's id, market, price and side and the quantity the track allows. */
  lemma {:induction false} FillsComeFromPrints(cfg: Config, n: nat, evs: seq<Event>, k: nat)
    requires k < |Run(cfg, n, evs).log|
    ensures exists i :: 0 <= i < |evs| && FilledAt(cfg, n, evs, i, Run(cfg, n, evs).log[k])
    decreases |evs|
  {
    var j, ev := |evs| - 1, evs[|evs| - 1];
    var now := if ev.Tape? then ev.p.ts else 0;
    var e, a, f := Run(cfg, n, evs[..j]), Run(cfg, n, evs[..j] + [Clock(now)]), Run(cfg, n, evs).log[k];
    LastStepLog(cfg, n, evs[..j], ev, now, e, a);
    if k < |e.log| {
      FillsComeFromPrints(cfg, n, evs[..j], k);
      var i :| 0 <= i < |evs[..j]| && FilledAt(cfg, n, evs[..j], i, e.log[k]);
      FilledEarlier(cfg, n, evs, j, i, e.log[k]);
      assert e.log[k] == f;
    } else {
      FilledNow(cfg, n, evs, ev, f, e, a, k);
    }
  }

  /** On a tape of nonnegative sizes no fill exceeds its print. */
  lemma FillsWithinPrint(cfg: Config, n: nat, evs: seq<Event>, i: nat, f: Fill)
    requires SaneTape(evs) && FilledAt(cfg, n, evs, i, f)
    ensures f.qty <= evs[i].p.size
  {
    var tick := evs[..i] + [Clock(evs[i].p.ts)];
    SlotLife(cfg, n, tick, f.idx);
    RunsBounded(cfg, tick, Room(cfg, n, tick));
  }
}
