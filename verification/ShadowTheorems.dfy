/** What holds after every run of the shadow engine. */
module ShadowTheorems {

  import opened Orders
  import opened Engine
  import opened Lifecycle
  import opened Refinement
  import opened ShadowRuns

  // ---------------------------------------------------------------- the tables

  /** After every run: no illegal transition was ever attempted; the free, pending and
      open lists hold exactly the slots of their states, each once; the order-id index is
      a bijection onto the slots in use; the gauge equals the exposure of the live orders
      in total and in each of the 4096 market slots; and every slot is free, pending, live, or held for
      good by an order the Queue track refused. */
  lemma TablesExact(cfg: Config, n: nat, evs: seq<Event>)
    ensures var e := Run(cfg, n, evs);
      && e.reg.illegal == 0 && |e.reg.slots| == n && e.scratch == []
      && Holds(e.reg.free, e.reg.slots, FreeSlots) && Holds(Idxs(e.pending), e.reg.slots, PendingSlots)
      && Holds(e.open, e.reg.slots, LiveSlots) && CidIndex(e.reg, e.cidSeq) && GaugeExact(e.reg.slots, e.reg.gauge)
      && |e.reg.gauge.atRisk| == |e.reg.gauge.contracts| == 4096
      && (forall i | 0 <= i < n :: e.reg.slots[i].state != Filled && e.reg.slots[i].state != Canceled)
      && |e.reg.free| + |e.pending| + |e.open| + e.ineligible == n
  {
    RunAgrees(cfg, n, evs);
    RunSize(cfg, n, evs, []);
    Counted(Run(cfg, n, evs));
  }

  lemma Counted(e: Engine)
    requires Struct(e) && Queued(e) && e.scratch == []
    ensures forall i | 0 <= i < |e.reg.slots| :: e.reg.slots[i].state != Filled && e.reg.slots[i].state != Canceled
    ensures |e.reg.free| + |e.pending| + |e.open| + e.ineligible == |e.reg.slots|
  {
    HoldsCount(e.reg.free, e.reg.slots, FreeSlots);
    HoldsCount(Idxs(e.pending), e.reg.slots, PendingSlots);
    HoldsCount(e.open, e.reg.slots, LiveSlots);
    SlotsAccounted(e.reg.slots);
  }

  lemma {:induction false} RunSize(cfg: Config, n: nat, evs: seq<Event>, more: seq<Event>)
    ensures |Run(cfg, n, evs).reg.slots| == n
    ensures Run(cfg, n, evs + more).ineligible >= Run(cfg, n, evs).ineligible
    decreases |evs| + |more|, |more|
  {
    if more != [] {
      RunSize(cfg, n, evs, more[..|more| - 1]);
      assert (evs + more)[..|evs + more| - 1] == evs + more[..|more| - 1];
    } else {
      assert evs + more == evs;
      if evs != [] { RunSize(cfg, n, evs[..|evs| - 1], []); }
    }
  }

  /** Slots of refused orders are never recycled: once they fill the table, no later
      placement of any continuation finds a slot. */
  lemma RefusedOrdersExhaustTable(cfg: Config, n: nat, evs: seq<Event>, more: seq<Event>)
    requires Run(cfg, n, evs).ineligible >= n
    ensures Run(cfg, n, evs + more).reg.free == []
  {
    RunSize(cfg, n, evs, more);
    TablesExact(cfg, n, evs + more);
  }

  // ---------------------------------------------------------------- clocks and settlement

  lemma LivesSnoc(cfg: Config, evs: seq<Event>, ok: seq<bool>, ev: Event, a: bool)
    requires |ok| == |evs|
    ensures LivesOn(cfg, evs + [ev], ok + [a]) == LivesStep(cfg, LivesOn(cfg, evs, ok), ev, a)
  {
    assert (evs + [ev])[..|evs|] == evs && (ok + [a])[..|evs|] == ok;
  }

  lemma RoomSnoc(cfg: Config, n: nat, evs: seq<Event>, ev: Event)
    ensures Room(cfg, n, evs + [ev]) == Room(cfg, n, evs) + [|Run(cfg, n, evs).reg.free| > 0]
  {
    assert (evs + [ev])[..|evs|] == evs;
  }

  lemma RunSnoc(cfg: Config, n: nat, evs: seq<Event>, ev: Event)
    ensures Run(cfg, n, evs + [ev]) == Step(Run(cfg, n, evs), ev)
  {
    assert (evs + [ev])[..|evs|] == evs;
  }

  lemma ClockIs(cfg: Config, n: nat, evs: seq<Event>, now: nat)
    ensures Run(cfg, n, evs + [Clock(now)]) == Advance(Run(cfg, n, evs), now)
  {
    RunSnoc(cfg, n, evs, Clock(now));
  }

  lemma RunReady(cfg: Config, n: nat, evs: seq<Event>)
    ensures Struct(Run(cfg, n, evs)) && Run(cfg, n, evs).scratch == []
  {
    RunAgrees(cfg, n, evs);
  }

  // What a slot in use says about its order's life.
  lemma SlotLife(cfg: Config, n: nat, evs: seq<Event>, i: nat)
    requires i < |Run(cfg, n, evs).reg.slots| && Run(cfg, n, evs).reg.slots[i].state != Free
    ensures var r, j := Run(cfg, n, evs).reg.slots[i], LivesOf(cfg, n, evs).j; r.cid in j && j[r.cid].rec == r
  {
    RunAgrees(cfg, n, evs);
    AgreeSlot(Run(cfg, n, evs), LivesOf(cfg, n, evs), i);
  }

  lemma AgreeSlot(e: Engine, s: Lives, i: nat)
    requires CidIndex(e.reg, e.cidSeq) && RecsMatch(e.reg, s.j) && i < |e.reg.slots| && e.reg.slots[i].state != Free
    ensures e.reg.slots[i].cid in s.j && s.j[e.reg.slots[i].cid].rec == e.reg.slots[i]
  {
    assert e.reg.slots[i].cid in e.reg.byCid;
  }

  /** Advancing the clock misses nothing: afterwards no order is waiting past its
      activation time and no cancel is waiting past its effective time, whatever stale
      and repeated entries the work lists held. */
  lemma AdvanceMissesNothing(cfg: Config, n: nat, evs: seq<Event>, now: nat, i: nat)
    requires i < |Run(cfg, n, evs + [Clock(now)]).reg.slots|
    ensures var r := Run(cfg, n, evs + [Clock(now)]).reg.slots[i];
      && (r.state == PendingNew ==> now < r.activeTs)
      && (r.state == PendingCancel ==> now < r.cancelEff)
  {
    var r := Run(cfg, n, evs + [Clock(now)]).reg.slots[i];
    if r.state != Free {
      SlotLife(cfg, n, evs + [Clock(now)], i);
      RoomSnoc(cfg, n, evs, Clock(now));
      LivesSnoc(cfg, evs, Room(cfg, n, evs), Clock(now), |Run(cfg, n, evs).reg.free| > 0);
      NothingDue(cfg.track, LivesOf(cfg, n, evs).j, now, r.cid);
    }
  }

  lemma NothingDue(track: Track, j: Ideal, now: nat, c: nat)
    requires c in AdvanceAll(track, j, now)
    ensures var r := AdvanceAll(track, j, now)[c].rec;
      && (r.state == PendingNew ==> now < r.activeTs) && (r.state == PendingCancel ==> now < r.cancelEff)
  {
  }

  // ---- what a caller can count

  // Markets registered by these events.
  function MarketsIn(evs: seq<Event>): nat {
    if evs == [] then 0
    else MarketsIn(evs[..|evs| - 1]) + if evs[|evs| - 1].NewMarket? then 1 else 0
  }

  // Order ids handed out by these events: one per placement, dropped or not.
  function Issued(evs: seq<Event>): nat {
    if evs == [] then 0
    else
      var before, ev := evs[..|evs| - 1], evs[|evs| - 1];
      Issued(before) + if ev.PlaceOrder? && ev.market < MarketsIn(before) then 1 else 0
  }

  // Order c was placed before some settlement of market m among these events.
  predicate Outlived(evs: seq<Event>, c: nat, m: nat) {
    exists k | 0 <= k < |evs| :: evs[k].Settlement? && evs[k].market == m && c <= Issued(evs[..k])
  }

  lemma {:induction false} IssuedGrows(evs: seq<Event>, k: nat)
    requires k <= |evs|
    ensures Issued(evs[..k]) <= Issued(evs)
    decreases |evs|
  {
    if k == |evs| {
      assert evs[..k] == evs;
    } else {
      IssuedGrows(evs[..|evs| - 1], k);
      assert evs[..|evs| - 1][..k] == evs[..k];
    }
  }

  lemma OutlivedSnoc(evs: seq<Event>, ev: Event, c: nat, m: nat)
    ensures Outlived(evs + [ev], c, m) <==> Outlived(evs, c, m) || (ev.Settlement? && ev.market == m && c <= Issued(evs))
  {
    var all := evs + [ev];
    assert all[..|evs|] == evs && all[|evs|] == ev;
    assert forall k | 0 <= k < |evs| :: all[k] == evs[k] && all[..k] == evs[..k];
  }

  lemma NotYetIssued(evs: seq<Event>, c: nat, m: nat)
    requires c > Issued(evs)
    ensures !Outlived(evs, c, m)
  {
    forall k | 0 <= k < |evs| ensures c > Issued(evs[..k]) { IssuedGrows(evs, k); }
  }

  // ---- the list flag is that count

  // Ids and markets of the orders so far, and who is on a market's list.
  ghost predicate Dated(s: Lives, evs: seq<Event>) {
    && s.markets == MarketsIn(evs) && s.cidSeq == Issued(evs)
    && (forall c | c in s.j ::
          0 < c <= s.cidSeq && s.j[c].rec.market < s.markets && (s.j[c].listed <==> !Outlived(evs, c, s.j[c].rec.market)))
  }

  // An event does to an old order's listing what it says, and keeps what the order is.
  ghost predicate Relisted(s: Lives, ev: Event, s': Lives, c: nat)
    requires c in s.j
  {
    && c in s'.j && s'.j[c].rec.market == s.j[c].rec.market && s'.j[c].displayed == s.j[c].displayed
    && (s'.j[c].listed <==> s.j[c].listed && !(ev.Settlement? && ev.market == s.j[c].rec.market))
  }

  lemma RelistRequest(cfg: Config, s: Lives, ev: Event, a: bool, c: nat)
    requires c in s.j && c <= s.cidSeq && (ev.PlaceOrder? || ev.CancelOrder? || ev.NewMarket?)
    ensures Relisted(s, ev, LivesStep(cfg, s, ev, a), c)
  {
  }

  lemma RelistClock(cfg: Config, s: Lives, ev: Event, a: bool, c: nat)
    requires c in s.j && ev.Clock?
    ensures Relisted(s, ev, LivesStep(cfg, s, ev, a), c)
  {
  }

  lemma RelistTape(cfg: Config, s: Lives, ev: Event, a: bool, c: nat)
    requires c in s.j && ev.Tape?
    ensures Relisted(s, ev, LivesStep(cfg, s, ev, a), c)
  {
    RelistClock(cfg, s, Clock(ev.p.ts), a, c);
  }

  // What an order is, and whether it is listed.
  predicate SameListing(l: Life, l': Life) { l'.rec.market == l.rec.market && l'.displayed == l.displayed && l'.listed == l.listed }

  lemma AdvanceKeepsListing(track: Track, j: Ideal, now: nat, c: nat)
    requires c in j
    ensures c in AdvanceAll(track, j, now) && SameListing(j[c], AdvanceAll(track, j, now)[c])
  {
  }

  lemma SettleUnlists(j: Ideal, m: nat, c: nat)
    requires c in j
    ensures var j' := UnlistAll(SettleAll(j, m), m);
      && c in j' && j'[c].rec.market == j[c].rec.market && j'[c].displayed == j[c].displayed
      && (j'[c].listed <==> j[c].listed && m != j[c].rec.market)
  {
  }

  lemma RelistSettlement(cfg: Config, s: Lives, ev: Event, a: bool, c: nat)
    requires c in s.j && ev.Settlement? && s.j[c].rec.market < s.markets
    ensures Relisted(s, ev, LivesStep(cfg, s, ev, a), c)
  {
    if ev.market < s.markets {
      var j := AdvanceAll(cfg.track, s.j, ev.ts);
      AdvanceKeepsListing(cfg.track, s.j, ev.ts, c);
      SettleUnlists(j, ev.market, c);
      assert LivesStep(cfg, s, ev, a) == s.(j := UnlistAll(SettleAll(j, ev.market), ev.market));
    }
  }

  lemma Relist(cfg: Config, s: Lives, ev: Event, a: bool, c: nat)
    requires c in s.j && c <= s.cidSeq && s.j[c].rec.market < s.markets
    ensures Relisted(s, ev, LivesStep(cfg, s, ev, a), c)
  {
    if ev.Clock? { RelistClock(cfg, s, ev, a, c); }
    else if ev.Tape? { RelistTape(cfg, s, ev, a, c); }
    else if ev.Settlement? { RelistSettlement(cfg, s, ev, a, c); }
    else { RelistRequest(cfg, s, ev, a, c); }
  }

  // Only a placement adds an order, and it adds the next id.
  lemma NewOrders(cfg: Config, s: Lives, ev: Event, a: bool, c: nat)
    requires c in LivesStep(cfg, s, ev, a).j && c !in s.j
    ensures var l := LivesStep(cfg, s, ev, a).j[c];
      c == s.cidSeq + 1 && ev.PlaceOrder? && ev.market < s.markets && l.rec.market == ev.market && l.listed
  {
  }

  lemma ScaleStep(cfg: Config, s: Lives, evs: seq<Event>, ev: Event, a: bool)
    requires s.markets == MarketsIn(evs) && s.cidSeq == Issued(evs)
    ensures var s' := LivesStep(cfg, s, ev, a); s'.markets == MarketsIn(evs + [ev]) && s'.cidSeq == Issued(evs + [ev])
  {
    assert (evs + [ev])[..|evs|] == evs;
  }

  lemma DatedStep(cfg: Config, s: Lives, evs: seq<Event>, ev: Event, a: bool)
    requires Dated(s, evs)
    ensures Dated(LivesStep(cfg, s, ev, a), evs + [ev])
  {
    var s' := LivesStep(cfg, s, ev, a);
    ScaleStep(cfg, s, evs, ev, a);
    forall c | c in s'.j
      ensures 0 < c <= s'.cidSeq && s'.j[c].rec.market < s'.markets
      ensures s'.j[c].listed <==> !Outlived(evs + [ev], c, s'.j[c].rec.market)
    {
      OutlivedSnoc(evs, ev, c, s'.j[c].rec.market);
      if c in s.j {
        Relist(cfg, s, ev, a, c);
      } else {
        NewOrders(cfg, s, ev, a, c);
        NotYetIssued(evs, c, s'.j[c].rec.market);
      }
    }
  }

  lemma {:induction false} ListedMeans(cfg: Config, evs: seq<Event>, ok: seq<bool>)
    requires |ok| == |evs|
    ensures Dated(LivesOn(cfg, evs, ok), evs)
    decreases |evs|
  {
    if evs != [] {
      var k := |evs| - 1;
      ListedMeans(cfg, evs[..k], ok[..k]);
      DatedStep(cfg, LivesOn(cfg, evs[..k], ok[..k]), evs[..k], evs[k], ok[k]);
      assert evs[..k] + [evs[k]] == evs;
    }
  }

  // ---- what a settlement leaves behind

  // Order c is in the table, in market m, Open or PendingCancel.
  ghost predicate LiveIn(e: Engine, c: nat, m: nat) {
    && c in e.reg.byCid && e.reg.byCid[c] < |e.reg.slots|
    && var r := e.reg.slots[e.reg.byCid[c]]; r.market == m && IsLive(r.state)
  }

  ghost predicate LiveLife(j: Ideal, c: nat, m: nat) { c in j && j[c].rec.market == m && IsLive(j[c].rec.state) }

  lemma LiveIsLive(e: Engine, j: Ideal, c: nat, m: nat)
    requires RecsMatch(e.reg, j)
    ensures LiveIn(e, c, m) <==> LiveLife(j, c, m)
  {
  }

  lemma SettledLife(j: Ideal, m: nat, c: nat)
    ensures LiveLife(UnlistAll(SettleAll(j, m), m), c, m) <==> LiveLife(j, c, m) && !j[c].listed
  {
  }

  lemma SettledLives(cfg: Config, s: Lives, m: nat, yes: bool, ts: nat, a: bool, c: nat)
    requires m < s.markets
    ensures var j1, j2 := LivesStep(cfg, s, Clock(ts), a).j, LivesStep(cfg, s, Settlement(m, yes, ts), a).j;
      LiveLife(j2, c, m) <==> LiveLife(j1, c, m) && c in s.j && !s.j[c].listed
  {
    var j := AdvanceAll(cfg.track, s.j, ts);
    SettlementIs(cfg, s, m, yes, ts, a);
    SettledLife(j, m, c);
    if c in s.j { AdvanceKeepsListing(cfg.track, s.j, ts, c); }
  }

  lemma SettlementIs(cfg: Config, s: Lives, m: nat, yes: bool, ts: nat, a: bool)
    requires m < s.markets
    ensures var j := AdvanceAll(cfg.track, s.j, ts);
      && j.Keys == s.j.Keys && LivesStep(cfg, s, Clock(ts), a).j == j
      && LivesStep(cfg, s, Settlement(m, yes, ts), a).j == UnlistAll(SettleAll(j, m), m)
  {
  }

  lemma AgreeAfter(cfg: Config, n: nat, evs: seq<Event>, ev: Event)
    ensures RecsMatch(Run(cfg, n, evs + [ev]).reg, LivesStep(cfg, LivesOf(cfg, n, evs), ev, |Run(cfg, n, evs).reg.free| > 0).j)
  {
    RunAgrees(cfg, n, evs + [ev]);
    RoomSnoc(cfg, n, evs, ev);
    LivesSnoc(cfg, evs, Room(cfg, n, evs), ev, |Run(cfg, n, evs).reg.free| > 0);
  }

  /** What a settlement leaves behind, exactly: of the orders that are live in the market
      once the clock has reached the settlement, those stay live that were placed before
      an earlier settlement of the same market, and no others. */
  lemma SettlementExact(cfg: Config, n: nat, evs: seq<Event>, m: nat, yes: bool, ts: nat, c: nat)
    requires m < MarketsIn(evs)
    ensures LiveIn(Run(cfg, n, evs + [Settlement(m, yes, ts)]), c, m)
       <==> LiveIn(Run(cfg, n, evs + [Clock(ts)]), c, m) && Outlived(evs, c, m)
  {
    var s, a := LivesOf(cfg, n, evs), |Run(cfg, n, evs).reg.free| > 0;
    ListedMeans(cfg, evs, Room(cfg, n, evs));
    AgreeAfter(cfg, n, evs, Settlement(m, yes, ts));
    AgreeAfter(cfg, n, evs, Clock(ts));
    LiveIsLive(Run(cfg, n, evs + [Settlement(m, yes, ts)]), LivesStep(cfg, s, Settlement(m, yes, ts), a).j, c, m);
    LiveIsLive(Run(cfg, n, evs + [Clock(ts)]), LivesStep(cfg, s, Clock(ts), a).j, c, m);
    SettledLives(cfg, s, m, yes, ts, a, c);
    if LiveLife(LivesStep(cfg, s, Clock(ts), a).j, c, m) { AdvancedFrom(cfg, s, ts, a, c, m); }
  }

  // Advancing the clock brings in no orders.
  lemma AdvancedFrom(cfg: Config, s: Lives, ts: nat, a: bool, c: nat, m: nat)
    requires LiveLife(LivesStep(cfg, s, Clock(ts), a).j, c, m)
    ensures c in s.j && s.j[c].rec.market == m
  {
  }

  predicate NeverSettled(evs: seq<Event>, m: nat) {
    forall i | 0 <= i < |evs| :: !(evs[i].Settlement? && evs[i].market == m)
  }

  /** In particular the first settlement of a market leaves no live order in it. */
  lemma FirstSettlementClears(cfg: Config, n: nat, evs: seq<Event>, m: nat, yes: bool, ts: nat, c: nat)
    requires NeverSettled(evs, m) && m < MarketsIn(evs)
    ensures !LiveIn(Run(cfg, n, evs + [Settlement(m, yes, ts)]), c, m)
  {
    SettlementExact(cfg, n, evs, m, yes, ts, c);
  }
}
