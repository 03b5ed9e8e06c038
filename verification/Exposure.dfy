/**
 Sums over all orders of a run, tied to what the engine reports: the gauge the hot thread
 reads, and the fills in the ledger's log.
 */
module Exposure {

  import opened Orders
  import opened Ledger
  import opened Engine
  import opened Lifecycle
  import opened Refinement
  import opened ShadowRuns
  import opened ShadowTheorems
  import opened Tracks
  import opened FillLog

  // What one order adds to a quantity of interest. An order counts as opened once it has
  // been activated, also if the Queue track refuses it right away, and releases what is
  // left of it when a cancel, an expiry or a settlement ends it.
  // Share is what print p gives it, Wants what it would take of an unlimited print, and
  // Takes whether that is anything.
  datatype Part =
    EverOpened | StillLive | MovedToFills | Released | Contracts
    | Share(track: Track, p: Print) | Wants(track: Track, p: Print) | Takes(track: Track, p: Print)

  function PartOf(l: Life, part: Part): int {
    var r := l.rec;
    match part
    case EverOpened => if r.state == PendingNew then 0 else RiskCents(r.count, r.price, r.buyYes)
    case StillLive => Weight(r, TotalRisk)
    case MovedToFills => RiskCents(r.filled, r.price, r.buyYes)
    case Released => if r.state == Canceled || r.state == Expired then RiskCents(r.Remaining(), r.price, r.buyYes) else 0
    case Contracts => r.filled
    case Share(track, p) => if IsLive(r.state) && Reaches(r, p) then Max(0, FillQty(track, r, p)) else 0
    case Wants(track, p) => if Served(track, r, p) then Max(0, r.Remaining()) else 0
    case Takes(track, p) => if Served(track, r, p) && r.Remaining() > 0 then 1 else 0
  }

  // The print gets to this order with something left for it.
  predicate Served(track: Track, r: OrderRec, p: Print) {
    && IsLive(r.state) && Reaches(r, p) && Available(track, r, p) > 0
    && (track != Queue || r.queueAhead - Drain(track, r, p) == 0)
  }

  // The sum over the orders with ids up to n.
  function OverOrders(j: Ideal, n: nat, part: Part): int {
    if n == 0 then 0 else OverOrders(j, n - 1, part) + if n in j then PartOf(j[n], part) else 0
  }

  // ---------------------------------------------------------------- the gauge

  lemma {:induction false} NoneLive(slots: seq<OrderRec>)
    requires forall i | 0 <= i < |slots| :: !IsLive(slots[i].state)
    ensures Sum(slots, TotalRisk) == 0
  {
    if slots != [] { NoneLive(slots[1..]); }
  }

  // The index reaches every live slot, each once, and gives it to the order it is for.
  ghost predicate Reached(slots: seq<OrderRec>, byCid: map<nat, nat>, j: Ideal, n: nat) {
    && (forall i | 0 <= i < |slots| && IsLive(slots[i].state) :: slots[i].cid in byCid && byCid[slots[i].cid] == i)
    && (forall c | c in byCid ::
          && 0 < c <= n && byCid[c] < |slots| && slots[byCid[c]].cid == c
          && c in j && PartOf(j[c], StillLive) == Weight(slots[byCid[c]], TotalRisk))
    && (forall c | 0 < c <= n && c in j && c !in byCid :: PartOf(j[c], StillLive) == 0)
  }

  lemma ReachedLess(slots: seq<OrderRec>, byCid: map<nat, nat>, j: Ideal, n: nat)
    requires n > 0 && Reached(slots, byCid, j, n)
    ensures n !in byCid ==> Reached(slots, byCid, j, n - 1)
    ensures n in byCid ==> Reached(slots[byCid[n] := EMPTY], byCid - {n}, j, n - 1)
  {
  }

  // The sum over the table is the sum over the orders.
  lemma {:induction false} LiveSum(slots: seq<OrderRec>, byCid: map<nat, nat>, j: Ideal, n: nat)
    requires Reached(slots, byCid, j, n)
    ensures Sum(slots, TotalRisk) == OverOrders(j, n, StillLive)
    decreases n
  {
    if n == 0 {
      NoneLive(slots);
    } else {
      ReachedLess(slots, byCid, j, n);
      if n in byCid {
        SumUpdate(slots, byCid[n], EMPTY, TotalRisk);
        LiveSum(slots[byCid[n] := EMPTY], byCid - {n}, j, n - 1);
      } else {
        LiveSum(slots, byCid, j, n - 1);
      }
    }
  }

  lemma TableReached(e: Engine, s: Lives)
    requires CidIndex(e.reg, e.cidSeq) && RecsMatch(e.reg, s.j) && e.cidSeq == s.cidSeq && forall c | c in s.j :: 0 < c
    ensures Reached(e.reg.slots, e.reg.byCid, s.j, s.cidSeq)
  {
  }

  // ---------------------------------------------------------------- the log

  // What a fill is worth: the risk it takes over, or its contracts.
  function Worth(qty: int, price: int, buyYes: bool, part: Part): int {
    if part == MovedToFills then RiskCents(qty, price, buyYes) else qty
  }

  function LogWorth(fills: seq<Fill>, part: Part): int
    decreases |fills|
  {
    if fills == [] then 0
    else
      var f := fills[|fills| - 1];
      LogWorth(fills[..|fills| - 1], part) + Worth(f.qty, f.price, f.buyYes, part)
  }

  // The same, order by order.
  function ByOrder(fills: seq<Fill>, j: Ideal, n: nat, part: Part): int
    decreases n
  {
    if n == 0 then 0
    else ByOrder(fills, j, n - 1, part) +
         if n in j then Worth(FilledQty(fills, n), j[n].rec.price, j[n].rec.buyYes, part) else 0
  }

  // Every fill is at its order's price and side.
  ghost predicate Priced(fills: seq<Fill>, j: Ideal) {
    forall k | 0 <= k < |fills| ::
      fills[k].cid in j && fills[k].price == j[fills[k].cid].rec.price && fills[k].buyYes == j[fills[k].cid].rec.buyYes
  }

  lemma WorthAdds(a: int, b: int, price: int, buyYes: bool, part: Part)
    ensures Worth(a + b, price, buyYes, part) == Worth(a, price, buyYes, part) + Worth(b, price, buyYes, part)
    ensures Worth(0, price, buyYes, part) == 0
  {
    RiskAdds(a, b, price, buyYes);
  }

  lemma {:induction false} ByOrderPush(fills: seq<Fill>, f: Fill, j: Ideal, n: nat, part: Part)
    requires f.cid in j && f.price == j[f.cid].rec.price && f.buyYes == j[f.cid].rec.buyYes && f.cid > 0
    ensures ByOrder(fills + [f], j, n, part)
         == ByOrder(fills, j, n, part) + if f.cid <= n then Worth(f.qty, f.price, f.buyYes, part) else 0
    decreases n
  {
    if n > 0 {
      ByOrderPush(fills, f, j, n - 1, part);
      QtyPush(fills, f, n);
      WorthAdds(FilledQty(fills, n), f.qty, f.price, f.buyYes, part);
    }
  }

  lemma {:induction false} NoFills(j: Ideal, n: nat, part: Part)
    ensures ByOrder([], j, n, part) == 0
  {
    if n > 0 {
      NoFills(j, n - 1, part);
      if n in j { WorthAdds(0, 0, j[n].rec.price, j[n].rec.buyYes, part); }
    }
  }

  lemma {:induction false} LogByOrder(fills: seq<Fill>, j: Ideal, n: nat, part: Part)
    requires Priced(fills, j) && forall c | c in j :: 0 < c <= n
    ensures LogWorth(fills, part) == ByOrder(fills, j, n, part)
    decreases |fills|
  {
    if fills == [] {
      NoFills(j, n, part);
    } else {
      var k := |fills| - 1;
      LogByOrder(fills[..k], j, n, part);
      ByOrderPush(fills[..k], fills[k], j, n, part);
      assert fills[..k] + [fills[k]] == fills;
    }
  }

  lemma {:induction false} FilledByOrder(fills: seq<Fill>, j: Ideal, n: nat, part: Part)
    requires (part == MovedToFills || part == Contracts) && forall c | c in j :: FilledQty(fills, c) == j[c].rec.filled
    ensures ByOrder(fills, j, n, part) == OverOrders(j, n, part)
    decreases n
  {
    if n > 0 { FilledByOrder(fills, j, n - 1, part); }
  }

  lemma {:induction false} LogRisk(fills: seq<Fill>)
    ensures LogWorth(fills, MovedToFills) == FilledRisk(fills, -1)
    decreases |fills|
  {
    if fills != [] { LogRisk(fills[..|fills| - 1]); }
  }

  // ---------------------------------------------------------------- over a run

  // An order keeps its price and side, is filled only once live, and ends Filled only
  // with nothing left.
  predicate Tallied(l: Life) {
    && l.rec.state != Free
    && (l.rec.state == PendingNew ==> l.rec.filled == 0) && (l.rec.state == Filled ==> l.rec.filled == l.rec.count)
  }

  predicate SameTerms(l: Life, l': Life) {
    l'.rec.price == l.rec.price && l'.rec.buyYes == l.rec.buyYes && l'.rec.count == l.rec.count
  }

  lemma ActivatedTerms(track: Track, l: Life, now: nat)
    ensures SameTerms(l, Activated(track, l, now)) && (Tallied(l) ==> Tallied(Activated(track, l, now)))
  {
  }

  lemma SweptTerms(l: Life, now: nat)
    ensures SameTerms(l, Swept(l, now)) && (Tallied(l) ==> Tallied(Swept(l, now)))
  {
  }

  lemma HitTerms(track: Track, l: Life, p: Print)
    ensures SameTerms(l, Hit(track, l, p)) && (Tallied(l) ==> Tallied(Hit(track, l, p)))
  {
  }

  // Every order of j is still there in j', on the same terms.
  ghost predicate Continues(j: Ideal, j': Ideal) {
    && (forall c | c in j :: c in j' && SameTerms(j[c], j'[c]))
    && ((forall c | c in j :: Tallied(j[c])) ==> forall c | c in j' :: Tallied(j'[c]))
  }

  lemma AdvanceContinues(track: Track, j: Ideal, now: nat)
    ensures Continues(j, AdvanceAll(track, j, now))
  {
    forall c | c in j
      ensures SameTerms(j[c], AdvanceAll(track, j, now)[c]) && (Tallied(j[c]) ==> Tallied(AdvanceAll(track, j, now)[c]))
    {
      ActivatedTerms(track, j[c], now);
      SweptTerms(Activated(track, j[c], now), now);
    }
  }

  lemma HitContinues(track: Track, j: Ideal, p: Print)
    ensures Continues(j, HitAll(track, j, p))
  {
    forall c | c in j ensures SameTerms(j[c], Hit(track, j[c], p)) && (Tallied(j[c]) ==> Tallied(Hit(track, j[c], p))) {
      HitTerms(track, j[c], p);
    }
  }

  lemma SettleContinues(j: Ideal, m: nat)
    ensures Continues(j, UnlistAll(SettleAll(j, m), m))
  {
  }

  lemma ContinuesOn(j: Ideal, j1: Ideal, j2: Ideal)
    requires Continues(j, j1) && Continues(j1, j2)
    ensures Continues(j, j2)
  {
  }

  lemma RequestContinues(cfg: Config, s: Lives, ev: Event, a: bool)
    requires (ev.PlaceOrder? || ev.CancelOrder? || ev.NewMarket?) && forall c | c in s.j :: c <= s.cidSeq
    ensures Continues(s.j, LivesStep(cfg, s, ev, a).j)
  {
  }

  lemma LivesContinue(cfg: Config, s: Lives, ev: Event, a: bool)
    requires forall c | c in s.j :: c <= s.cidSeq
    ensures Continues(s.j, LivesStep(cfg, s, ev, a).j)
  {
    if !Named(ev, s.markets) {
    } else if ev.Clock? {
      AdvanceContinues(cfg.track, s.j, ev.now);
    } else if ev.Tape? {
      var ja := AdvanceAll(cfg.track, s.j, ev.p.ts);
      AdvanceContinues(cfg.track, s.j, ev.p.ts);
      HitContinues(cfg.track, ja, ev.p);
      ContinuesOn(s.j, ja, HitAll(cfg.track, ja, ev.p));
    } else if ev.Settlement? {
      var ja := AdvanceAll(cfg.track, s.j, ev.ts);
      AdvanceContinues(cfg.track, s.j, ev.ts);
      SettleContinues(ja, ev.market);
      ContinuesOn(s.j, ja, UnlistAll(SettleAll(ja, ev.market), ev.market));
    } else {
      RequestContinues(cfg, s, ev, a);
    }
  }

  lemma OldPriced(fills: seq<Fill>, j: Ideal, j': Ideal)
    requires Priced(fills, j) && Continues(j, j')
    ensures Priced(fills, j')
  {
  }

  lemma NewPriced(a: Engine, sa: Lives, p: Print, fills: seq<Fill>, j': Ideal)
    requires CidIndex(a.reg, a.cidSeq) && RecsMatch(a.reg, sa.j) && AllFromPrint(a, p, fills) && Continues(sa.j, j')
    ensures Priced(fills, j')
  {
    forall k | 0 <= k < |fills|
      ensures fills[k].cid in j'
      ensures fills[k].price == j'[fills[k].cid].rec.price && fills[k].buyYes == j'[fills[k].cid].rec.buyYes
    {
      assert FromPrint(a, p, fills[k]);
      AgreeSlot(a, sa, fills[k].idx);
    }
  }

  lemma PricedBoth(log: seq<Fill>, k: nat, j: Ideal)
    requires k <= |log| && Priced(log[..k], j) && Priced(log[k..], j)
    ensures Priced(log, j)
  {
    forall i | 0 <= i < |log|
      ensures log[i].cid in j && log[i].price == j[log[i].cid].rec.price && log[i].buyYes == j[log[i].cid].rec.buyYes
    {
      assert log[i] == if i < k then log[..k][i] else log[k..][i - k];
    }
  }

  lemma PricedGrows(a: Engine, sa: Lives, p: Print, log: seq<Fill>, log': seq<Fill>, j: Ideal, j': Ideal)
    requires CidIndex(a.reg, a.cidSeq) && RecsMatch(a.reg, sa.j) && Continues(sa.j, j')
    requires |log| <= |log'| && log'[..|log|] == log && AllFromPrint(a, p, log'[|log|..])
    requires Priced(log, j) && Continues(j, j')
    ensures Priced(log', j')
  {
    OldPriced(log, j, j');
    NewPriced(a, sa, p, log'[|log|..], j');
    PricedBoth(log', |log|, j');
  }

  lemma PricedStep(cfg: Config, log: seq<Fill>, log': seq<Fill>, s: Lives, ev: Event, a: Engine, sa: Lives, ok: bool)
    requires Priced(log, s.j) && forall c | c in s.j :: c <= s.cidSeq
    requires |log| <= |log'| && log'[..|log|] == log && (log' == log || (ev.Tape? && Named(ev, s.markets)))
    requires ev.Tape? ==> AllFromPrint(a, ev.p, log'[|log|..])
    requires ev.Tape? ==> CidIndex(a.reg, a.cidSeq) && RecsMatch(a.reg, sa.j) && sa.j == AdvanceAll(cfg.track, s.j, ev.p.ts)
    ensures Priced(log', LivesStep(cfg, s, ev, ok).j)
  {
    var j' := LivesStep(cfg, s, ev, ok).j;
    LivesContinue(cfg, s, ev, ok);
    if ev.Tape? && Named(ev, s.markets) {
      assert j' == HitAll(cfg.track, sa.j, ev.p);
      HitContinues(cfg.track, sa.j, ev.p);
      PricedGrows(a, sa, ev.p, log, log', s.j, j');
    } else {
      OldPriced(log, s.j, j');
    }
  }

  lemma ClockIndex(cfg: Config, n: nat, evs: seq<Event>, a: Engine)
    requires a == Run(cfg, n, evs)
    ensures CidIndex(a.reg, a.cidSeq)
  {
    RunReady(cfg, n, evs);
  }

  lemma ClockRecs(cfg: Config, n: nat, evs: seq<Event>, now: nat, a: Engine, s: Lives)
    requires a == Run(cfg, n, evs + [Clock(now)]) && s == LivesOf(cfg, n, evs)
    ensures RecsMatch(a.reg, AdvanceAll(cfg.track, s.j, now))
  {
    AgreeAfter(cfg, n, evs, Clock(now));
    assert LivesStep(cfg, s, Clock(now), |Run(cfg, n, evs).reg.free| > 0).j == AdvanceAll(cfg.track, s.j, now);
  }

  ghost predicate AllTallied(j: Ideal) { forall c | c in j :: Tallied(j[c]) }

  // The last event of a run, seen from the log.
  lemma LastLog(cfg: Config, n: nat, evs: seq<Event>, ev: Event, now: nat, a: Engine, log: seq<Fill>, log': seq<Fill>)
    requires (ev.Tape? ==> now == ev.p.ts) && a == Run(cfg, n, evs + [Clock(now)])
    requires log == Run(cfg, n, evs).log && log' == Run(cfg, n, evs + [ev]).log
    ensures |log| <= |log'| && log'[..|log|] == log && (ev.Tape? ==> AllFromPrint(a, ev.p, log'[|log|..]))
    ensures log' == log || (ev.Tape? && Named(ev, LivesOf(cfg, n, evs).markets))
  {
    var e := Run(cfg, n, evs);
    RunAgrees(cfg, n, evs);
    RunSnoc(cfg, n, evs, ev);
    LastStepLog(cfg, n, evs, ev, now, e, a);
    if !(ev.Tape? && Named(ev, |e.books|)) { OtherStepLog(e, ev); }
  }

  lemma LivesAfter(cfg: Config, n: nat, evs: seq<Event>, ev: Event)
    ensures LivesOf(cfg, n, evs + [ev]) == LivesStep(cfg, LivesOf(cfg, n, evs), ev, |Run(cfg, n, evs).reg.free| > 0)
  {
    RoomSnoc(cfg, n, evs, ev);
    LivesSnoc(cfg, evs, Room(cfg, n, evs), ev, |Run(cfg, n, evs).reg.free| > 0);
  }

  lemma IdsInRange(cfg: Config, n: nat, evs: seq<Event>)
    ensures var s := LivesOf(cfg, n, evs); forall c | c in s.j :: 0 < c <= s.cidSeq
  {
    ListedMeans(cfg, evs, Room(cfg, n, evs));
  }

  lemma LastPriced(cfg: Config, n: nat, evs: seq<Event>, ev: Event, s: Lives, s': Lives)
    requires s == LivesOf(cfg, n, evs) && s' == LivesOf(cfg, n, evs + [ev])
    requires Priced(Run(cfg, n, evs).log, s.j) && AllTallied(s.j)
    ensures Priced(Run(cfg, n, evs + [ev]).log, s'.j) && AllTallied(s'.j)
  {
    var now, ok := if ev.Tape? then ev.p.ts else 0, |Run(cfg, n, evs).reg.free| > 0;
    var a, log, log' := Run(cfg, n, evs + [Clock(now)]), Run(cfg, n, evs).log, Run(cfg, n, evs + [ev]).log;
    IdsInRange(cfg, n, evs);
    LivesAfter(cfg, n, evs, ev);
    LastLog(cfg, n, evs, ev, now, a, log, log');
    ClockIndex(cfg, n, evs + [Clock(now)], a);
    ClockRecs(cfg, n, evs, now, a, s);
    PricedStep(cfg, log, log', s, ev, a, s.(j := AdvanceAll(cfg.track, s.j, now)), ok);
    LivesContinue(cfg, s, ev, ok);
  }

  // Over every run the log is at the orders' terms, and the orders' states say what
  // became of their size.
  lemma {:induction false} RunPriced(cfg: Config, n: nat, evs: seq<Event>)
    ensures Priced(Run(cfg, n, evs).log, LivesOf(cfg, n, evs).j) && AllTallied(LivesOf(cfg, n, evs).j)
    decreases |evs|
  {
    if evs != [] {
      var k := |evs| - 1;
      RunPriced(cfg, n, evs[..k]);
      assert evs[..k] + [evs[k]] == evs;
      LastPriced(cfg, n, evs[..k], evs[k], LivesOf(cfg, n, evs[..k]), LivesOf(cfg, n, evs));
    }
  }

  // What an order opened is live, filled or released.
  lemma PartsAdd(l: Life)
    requires Tallied(l)
    ensures PartOf(l, EverOpened) == PartOf(l, StillLive) + PartOf(l, MovedToFills) + PartOf(l, Released)
  {
    var r := l.rec;
    RiskAdds(r.filled, r.Remaining(), r.price, r.buyYes);
  }

  lemma {:induction false} SumsAdd(j: Ideal, n: nat)
    requires AllTallied(j)
    ensures OverOrders(j, n, EverOpened) == OverOrders(j, n, StillLive) + OverOrders(j, n, MovedToFills) + OverOrders(j, n, Released)
    decreases n
  {
    if n > 0 {
      SumsAdd(j, n - 1);
      if n in j { PartsAdd(j[n]); }
    }
  }

  lemma LogSum(fills: seq<Fill>, j: Ideal, n: nat, part: Part)
    requires Priced(fills, j) && FillsMatch(fills, j) && (part == MovedToFills || part == Contracts)
    requires forall c | c in j :: 0 < c <= n
    ensures LogWorth(fills, part) == OverOrders(j, n, part)
  {
    LogByOrder(fills, j, n, part);
    FilledByOrder(fills, j, n, part);
  }

  lemma AgreeLog(e: Engine, s: Lives)
    requires Agree(e, s)
    ensures FillsMatch(e.log, s.j)
  {
    assert e.log + e.scratch == e.log;
  }

  /** After every run the gauge's total is the worst-case loss of the orders that are live,
      the log's is that of the contracts filled, and the whole risk of all orders ever
      activated is one of these two or was released by a cancel, an expiry or a
      settlement. */
  lemma RiskConserved(cfg: Config, n: nat, evs: seq<Event>)
    ensures var e, s := Run(cfg, n, evs), LivesOf(cfg, n, evs);
      && e.reg.gauge.total == OverOrders(s.j, s.cidSeq, StillLive)
      && FilledRisk(e.log, -1) == OverOrders(s.j, s.cidSeq, MovedToFills)
      && OverOrders(s.j, s.cidSeq, EverOpened)
         == e.reg.gauge.total + FilledRisk(e.log, -1) + OverOrders(s.j, s.cidSeq, Released)
  {
    var e, s := Run(cfg, n, evs), LivesOf(cfg, n, evs);
    RunPriced(cfg, n, evs);
    RunAgrees(cfg, n, evs);
    IdsInRange(cfg, n, evs);
    TableReached(e, s);
    LiveSum(e.reg.slots, e.reg.byCid, s.j, s.cidSeq);
    AgreeLog(e, s);
    LogSum(e.log, s.j, s.cidSeq, MovedToFills);
    LogRisk(e.log);
    SumsAdd(s.j, s.cidSeq);
  }

  // ---------------------------------------------------------------- one print for all

  lemma {:induction false} AdvanceFilled(track: Track, j: Ideal, now: nat, n: nat)
    ensures OverOrders(AdvanceAll(track, j, now), n, Contracts) == OverOrders(j, n, Contracts)
    decreases n
  {
    if n > 0 { AdvanceFilled(track, j, now, n - 1); }
  }

  lemma {:induction false} HitShares(track: Track, j: Ideal, p: Print, n: nat)
    ensures OverOrders(HitAll(track, j, p), n, Contracts) == OverOrders(j, n, Contracts) + OverOrders(j, n, Share(track, p))
    decreases n
  {
    if n > 0 { HitShares(track, j, p, n - 1); }
  }

  lemma LogContracts(cfg: Config, n: nat, evs: seq<Event>)
    ensures var s := LivesOf(cfg, n, evs); LogWorth(Run(cfg, n, evs).log, Contracts) == OverOrders(s.j, s.cidSeq, Contracts)
  {
    var e, s := Run(cfg, n, evs), LivesOf(cfg, n, evs);
    RunPriced(cfg, n, evs);
    RunAgrees(cfg, n, evs);
    IdsInRange(cfg, n, evs);
    AgreeLog(e, s);
    LogSum(e.log, s.j, s.cidSeq, Contracts);
  }

  lemma TapeShares(cfg: Config, s: Lives, p: Print, ok: bool)
    requires p.market < s.markets
    ensures var s', ja := LivesStep(cfg, s, Tape(p), ok), AdvanceAll(cfg.track, s.j, p.ts);
      s'.cidSeq == s.cidSeq
      && OverOrders(s'.j, s.cidSeq, Contracts) == OverOrders(s.j, s.cidSeq, Contracts) + OverOrders(ja, s.cidSeq, Share(cfg.track, p))
  {
    AdvanceFilled(cfg.track, s.j, p.ts, s.cidSeq);
    HitShares(cfg.track, AdvanceAll(cfg.track, s.j, p.ts), p, s.cidSeq);
  }

  // What is there when the print comes, and what the print adds to the log.
  ghost function Before(cfg: Config, n: nat, evs: seq<Event>, p: Print): Lives { LivesOf(cfg, n, evs + [Clock(p.ts)]) }

  ghost function FilledBy(cfg: Config, n: nat, evs: seq<Event>, p: Print): int {
    LogWorth(Run(cfg, n, evs + [Tape(p)]).log, Contracts) - LogWorth(Run(cfg, n, evs).log, Contracts)
  }

  /** In every run, what one print fills in all is the sum of what it would give each
      working order on its own: the orders do not share it. */
  lemma PrintFillsExact(cfg: Config, n: nat, evs: seq<Event>, p: Print)
    requires p.market < MarketsIn(evs)
    ensures var b := Before(cfg, n, evs, p); FilledBy(cfg, n, evs, p) == OverOrders(b.j, b.cidSeq, Share(cfg.track, p))
  {
    var s, ok := LivesOf(cfg, n, evs), |Run(cfg, n, evs).reg.free| > 0;
    ListedMeans(cfg, evs, Room(cfg, n, evs));
    LogContracts(cfg, n, evs);
    LogContracts(cfg, n, evs + [Tape(p)]);
    LivesAfter(cfg, n, evs, Tape(p));
    LivesAfter(cfg, n, evs, Clock(p.ts));
    TapeShares(cfg, s, p, ok);
  }

  // Off the Queue track an order gets the smaller of the print and what it wants.
  lemma {:induction false} SharesCapped(track: Track, j: Ideal, p: Print, n: nat)
    requires track != Queue && p.size >= 0
    ensures var got, want, k := OverOrders(j, n, Share(track, p)), OverOrders(j, n, Wants(track, p)), OverOrders(j, n, Takes(track, p));
      && 0 <= got <= want && k >= 0 && (k == 0 ==> want == 0) && (k > 0 ==> got > 0)
      && (got > p.size <==> want > p.size && k >= 2)
      && (want <= p.size ==> got == want) && (k == 1 && want > p.size ==> got == p.size)
    decreases n
  {
    if n > 0 { SharesCapped(track, j, p, n - 1); }
  }

  /** So, off the Queue track, a print fills more than its size if and only if at least two
      working orders take from it and together they want more than its size. */
  lemma OverfillExact(cfg: Config, n: nat, evs: seq<Event>, p: Print)
    requires p.market < MarketsIn(evs) && p.size >= 0 && cfg.track != Queue
    ensures var b := Before(cfg, n, evs, p);
      FilledBy(cfg, n, evs, p) > p.size
      <==> OverOrders(b.j, b.cidSeq, Wants(cfg.track, p)) > p.size && OverOrders(b.j, b.cidSeq, Takes(cfg.track, p)) >= 2
  {
    var b := Before(cfg, n, evs, p);
    PrintFillsExact(cfg, n, evs, p);
    SharesCapped(cfg.track, b.j, p, b.cidSeq);
  }
}
