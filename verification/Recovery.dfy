/**
 When a table that has run full can ever take an order again. A slot comes back when its
 order is filled, canceled or settled; an order the Queue track refuses holds its slot for
 good, and an order of unknown depth that is still waiting for activation will be refused.
 */
module Recovery {

  import opened Orders
  import opened Lists
  import opened Engine
  import opened Lifecycle
  import opened Refinement
  import opened ShadowRuns
  import opened ShadowTheorems
  import opened Exposure

  function Refusal(track: Track, p: Pending): nat { if Eligible(track, p.displayed) then 0 else 1 }

  // How many of these waiting orders the track will refuse.
  function Refusals(track: Track, pending: seq<Pending>): (k: nat)
    ensures k <= |pending|
  {
    if pending == [] then 0 else Refusal(track, pending[0]) + Refusals(track, pending[1..])
  }

  // Slots that are lost, or will be.
  function Doomed(e: Engine): nat { e.ineligible + Refusals(e.cfg.track, e.pending) }

  // ---------------------------------------------------------------- counting

  lemma {:induction false} RefusalsPut(track: Track, s: seq<Pending>, k: nat, p: Pending)
    requires k < |s|
    ensures Refusals(track, s[k := p]) == Refusals(track, s) - Refusal(track, s[k]) + Refusal(track, p)
  {
    if k == 0 {
      assert s[0 := p][1..] == s[1..];
    } else {
      RefusalsPut(track, s[1..], k - 1, p);
      assert s[k := p][1..] == s[1..][k - 1 := p];
    }
  }

  lemma {:induction false} RefusalsPush(track: Track, s: seq<Pending>, p: Pending)
    ensures Refusals(track, s + [p]) == Refusals(track, s) + Refusal(track, p)
  {
    if s == [] {
      assert [p][1..] == [] && s + [p] == [p];
    } else {
      RefusalsPush(track, s[1..], p);
      assert (s + [p])[1..] == s[1..] + [p];
    }
  }

  lemma RefusalsSwapOut(track: Track, s: seq<Pending>, k: nat)
    requires k < |s|
    ensures Refusals(track, SwapOut(s, k)) == Refusals(track, s) - Refusal(track, s[k])
  {
    var n := |s| - 1;
    RefusalsPut(track, s, k, s[n]);
    assert s[k := s[n]] == SwapOut(s, k) + [s[n]];
    RefusalsPush(track, SwapOut(s, k), s[n]);
  }

  // ---------------------------------------------------------------- what moves the count

  ghost predicate SameQueue(e: Engine, e': Engine) { e'.cfg == e.cfg && e'.pending == e.pending && e'.ineligible == e.ineligible }

  lemma ActivateDoomed(e: Engine, k: nat)
    requires Indexed(e) && k < |e.pending|
    ensures Doomed(ActivateAt(e, k)) == Doomed(e)
  {
    RefusalsSwapOut(e.cfg.track, e.pending, k);
  }

  lemma {:induction false} ActivateAllDoomed(e: Engine, k: nat, now: nat)
    requires Indexed(e) && k <= |e.pending|
    ensures Doomed(ActivateDue(e, k, now)) == Doomed(e)
    decreases |e.pending| - k
  {
    if k < |e.pending| {
      if now >= e.reg.slots[e.pending[k].idx].activeTs {
        ActivateDoomed(e, k);
        ActivateAllDoomed(ActivateAt(e, k), k, now);
      } else {
        ActivateAllDoomed(e, k + 1, now);
      }
    }
  }

  lemma {:induction false} SweepQueue(e: Engine, k: nat, now: nat)
    requires Indexed(e) && k <= |e.canceling|
    ensures SameQueue(e, SweepDue(e, k, now))
    decreases |e.canceling| - k
  {
    if k < |e.canceling| {
      if SweepDone(e.reg.slots[e.canceling[k]], now) { SweepQueue(SweepAt(e, k, now), k, now); } else { SweepQueue(e, k + 1, now); }
    }
  }

  lemma AdvanceDoomed(e: Engine, now: nat)
    requires Indexed(e)
    ensures Doomed(Advance(e, now)) == Doomed(e)
  {
    ActivateAllDoomed(e, 0, now);
    SweepQueue(ActivateDue(e, 0, now), 0, now);
  }

  lemma {:induction false} HitQueue(e: Engine, k: nat, p: Print)
    requires Indexed(e) && k <= |e.open| && p.market < |e.books|
    ensures SameQueue(e, HitFrom(e, k, p))
    decreases |e.open| - k
  {
    if k < |e.open| {
      var e1 := HitAt(e, k, p);
      HitQueue(e1, if |e1.open| < |e.open| then k else k + 1, p);
    }
  }

  lemma {:induction false} DeliverQueue(e: Engine)
    requires Indexed(e)
    ensures SameQueue(e, Deliver(e))
    decreases |e.scratch|
  {
    if |e.scratch| > 0 { DeliverQueue(DeliverOne(e)); }
  }

  lemma TradeDoomed(e: Engine, p: Print)
    requires Indexed(e) && p.market < |e.books|
    ensures Doomed(Trade(e, p)) == Doomed(e)
  {
    var a := Advance(e, p.ts);
    AdvanceDoomed(e, p.ts);
    HitQueue(a, 0, p);
    DeliverQueue(HitFrom(a, 0, p));
  }

  lemma {:induction false} SettleQueue(e: Engine, list: seq<nat>, n: nat, market: nat)
    requires Indexed(e) && Within(list, |e.reg.slots|) && n <= |list|
    ensures SameQueue(e, SettleFrom(e, list, n, market))
    decreases |list| - n
  {
    if n < |list| { SettleQueue(SettleOne(e, list[n], market), list, n + 1, market); }
  }

  lemma SettleDoomed(e: Engine, market: nat, yesWins: bool, ts: nat)
    requires Indexed(e) && market < |e.books|
    ensures Doomed(Settle(e, market, yesWins, ts)) == Doomed(e)
  {
    var a := Advance(e, ts);
    AdvanceDoomed(e, ts);
    SettleQueue(a, Listed(a.byMarket, market), 0, market);
  }

  lemma PlaceDoomed(e: Engine, ev: Event)
    requires Indexed(e) && ev.PlaceOrder? && ev.market < |e.books|
    ensures var e' := Place(e, ev.market, ev.price, ev.count, ev.buyYes, ev.ts, ev.displayed);
      Doomed(e) <= Doomed(e')
  {
    if |e.reg.free| > 0 { RefusalsPush(e.cfg.track, e.pending, Pending(e.reg.free[|e.reg.free| - 1], ev.displayed)); }
  }

  // Only a placement adds to the count, and nothing takes away from it.
  lemma StepDoomed(e: Engine, ev: Event)
    requires Indexed(e)
    ensures Doomed(e) <= Doomed(Step(e, ev)) && (!ev.PlaceOrder? ==> Doomed(Step(e, ev)) == Doomed(e))
  {
    if Named(ev, |e.books|) {
      if ev.PlaceOrder? { PlaceDoomed(e, ev); }
      else if ev.Tape? { TradeDoomed(e, ev.p); }
      else if ev.Settlement? { SettleDoomed(e, ev.market, ev.yesWins, ev.ts); }
      else if ev.Clock? { AdvanceDoomed(e, ev.now); }
    }
  }

  predicate NoPlacements(evs: seq<Event>) { forall i | 0 <= i < |evs| :: !evs[i].PlaceOrder? }

  lemma {:induction false} RunDoomed(cfg: Config, n: nat, evs: seq<Event>, more: seq<Event>)
    ensures Doomed(Run(cfg, n, evs)) <= Doomed(Run(cfg, n, evs + more))
    ensures NoPlacements(more) ==> Doomed(Run(cfg, n, evs + more)) == Doomed(Run(cfg, n, evs))
    decreases |more|
  {
    if more == [] {
      assert evs + more == evs;
    } else {
      var k := |more| - 1;
      RunDoomed(cfg, n, evs, more[..k]);
      assert evs + more == (evs + more[..k]) + [more[k]];
      RunSnoc(cfg, n, evs + more[..k], more[k]);
      StepDoomed(Run(cfg, n, evs + more[..k]), more[k]);
    }
  }

  // ---------------------------------------------------------------- getting the slots back

  // A cancel is on its way, or the order is over.
  predicate Asked(l: Life) {
    IsTerminal(l.rec.state) || l.rec.state == PendingCancel || (l.rec.state == PendingNew && l.rec.cancelEff != 0)
  }

  ghost predicate AskedUpTo(j: Ideal, k: nat) { forall c | c in j && c <= k :: Asked(j[c]) }

  ghost predicate InUse(j: Ideal, n: nat) { forall c | c in j :: 0 < c <= n && j[c].rec.state != Free }

  lemma AskOne(cfg: Config, s: Lives, k: nat, ok: bool)
    requires AskedUpTo(s.j, k) && InUse(s.j, s.cidSeq)
    ensures var s' := LivesStep(cfg, s, CancelOrder(k + 1, 1), ok);
      AskedUpTo(s'.j, k + 1) && InUse(s'.j, s'.cidSeq) && s'.cidSeq == s.cidSeq
  {
  }

  lemma NobodyAsked(cfg: Config, n: nat, evs: seq<Event>, s: Lives)
    requires s == LivesOf(cfg, n, evs)
    ensures AskedUpTo(s.j, 0) && InUse(s.j, s.cidSeq)
  {
    RunPriced(cfg, n, evs);
    IdsInRange(cfg, n, evs);
  }

  lemma AskNext(cfg: Config, n: nat, evs: seq<Event>, k: nat, s: Lives, after: seq<Event>) returns (s': Lives)
    requires s == LivesOf(cfg, n, evs) && AskedUpTo(s.j, k) && InUse(s.j, s.cidSeq) && after == evs + [CancelOrder(k + 1, 1)]
    ensures s' == LivesOf(cfg, n, after) && AskedUpTo(s'.j, k + 1) && InUse(s'.j, s'.cidSeq) && s'.cidSeq == s.cidSeq
  {
    var ok := |Run(cfg, n, evs).reg.free| > 0;
    LivesAfter(cfg, n, evs, CancelOrder(k + 1, 1));
    AskOne(cfg, s, k, ok);
    s' := LivesStep(cfg, s, CancelOrder(k + 1, 1), ok);
  }

  lemma Prepend(evs: seq<Event>, ev: Event, rest: seq<Event>)
    ensures evs + [ev] + rest == evs + ([ev] + rest)
  {
  }

  lemma Append(evs: seq<Event>, more: seq<Event>, ev: Event)
    ensures evs + (more + [ev]) == evs + more + [ev]
  {
  }

  // Cancel the orders above k.
  lemma {:induction false} AskRest(cfg: Config, n: nat, evs: seq<Event>, k: nat, s: Lives) returns (more: seq<Event>, s': Lives)
    requires k <= s.cidSeq && s == LivesOf(cfg, n, evs) && AskedUpTo(s.j, k) && InUse(s.j, s.cidSeq)
    ensures NoPlacements(more) && s' == LivesOf(cfg, n, evs + more) && AskedUpTo(s'.j, s'.cidSeq) && InUse(s'.j, s'.cidSeq)
    decreases s.cidSeq - k
  {
    if k == s.cidSeq {
      more, s' := [], s;
      assert evs + more == evs;
    } else {
      var ask := CancelOrder(k + 1, 1);
      var s1 := AskNext(cfg, n, evs, k, s, evs + [ask]);
      var rest;
      rest, s' := AskRest(cfg, n, evs + [ask], k + 1, s1);
      more := [ask] + rest;
      Prepend(evs, ask, rest);
    }
  }

  // By this time everything the orders up to n wait for is due.
  function AllDue(j: Ideal, n: nat): (t: nat)
    ensures forall c | c in j && 0 < c <= n :: j[c].rec.activeTs <= t && j[c].rec.cancelEff <= t
  {
    if n == 0 then 0
    else AllDue(j, n - 1) + if n in j then j[n].rec.activeTs + j[n].rec.cancelEff else 0
  }

  lemma Ends(track: Track, l: Life, now: nat)
    requires Asked(l) && l.rec.activeTs <= now && l.rec.cancelEff <= now
    ensures IsTerminal(Swept(Activated(track, l, now), now).rec.state)
  {
  }

  ghost predicate AllOver(j: Ideal) { forall c | c in j :: IsTerminal(j[c].rec.state) }

  lemma AllEnd(cfg: Config, s: Lives, ok: bool)
    requires AskedUpTo(s.j, s.cidSeq) && InUse(s.j, s.cidSeq)
    ensures AllOver(LivesStep(cfg, s, Clock(AllDue(s.j, s.cidSeq)), ok).j)
  {
    var now := AllDue(s.j, s.cidSeq);
    forall c | c in s.j ensures IsTerminal(Swept(Activated(cfg.track, s.j[c], now), now).rec.state) {
      Ends(cfg.track, s.j[c], now);
    }
  }

  lemma NobodyLeft(e: Engine, j: Ideal)
    requires CidIndex(e.reg, e.cidSeq) && RecsMatch(e.reg, j) && AllOver(j)
    requires Holds(Idxs(e.pending), e.reg.slots, PendingSlots) && Holds(e.open, e.reg.slots, LiveSlots)
    ensures e.pending == [] && e.open == []
  {
    forall i | 0 <= i < |e.reg.slots| && e.reg.slots[i].state != Free ensures IsTerminal(e.reg.slots[i].state) {
      assert e.reg.slots[i].cid in e.reg.byCid;
    }
    HeadIn(Idxs(e.pending));
    HeadIn(e.open);
  }

  lemma LateTick(cfg: Config, n: nat, evs: seq<Event>, s: Lives, after: seq<Event>)
    requires s == LivesOf(cfg, n, evs) && AskedUpTo(s.j, s.cidSeq) && InUse(s.j, s.cidSeq)
    requires after == evs + [Clock(AllDue(s.j, s.cidSeq))]
    ensures Run(cfg, n, after).pending == [] && Run(cfg, n, after).open == []
  {
    var tick, ok := Clock(AllDue(s.j, s.cidSeq)), |Run(cfg, n, evs).reg.free| > 0;
    AllEnd(cfg, s, ok);
    AgreeAfter(cfg, n, evs, tick);
    RunReady(cfg, n, evs + [tick]);
    NobodyLeft(Run(cfg, n, evs + [tick]), LivesStep(cfg, s, tick, ok).j);
  }

  // Cancel everything, and wait long enough.
  lemma Rescued(cfg: Config, n: nat, evs: seq<Event>) returns (more: seq<Event>)
    ensures NoPlacements(more) && Run(cfg, n, evs + more).pending == [] && Run(cfg, n, evs + more).open == []
  {
    NobodyAsked(cfg, n, evs, LivesOf(cfg, n, evs));
    var asks, s := AskRest(cfg, n, evs, 0, LivesOf(cfg, n, evs));
    more := asks + [Clock(AllDue(s.j, s.cidSeq))];
    Append(evs, asks, Clock(AllDue(s.j, s.cidSeq)));
    LateTick(cfg, n, evs + asks, s, evs + more);
  }

  /** A continuation of the run that finds a free slot exists if and only if fewer than n
      slots are held by refused orders or by waiting orders that will be refused. */
  lemma TableRecovers(cfg: Config, n: nat, evs: seq<Event>)
    ensures (exists more :: Run(cfg, n, evs + more).reg.free != []) <==> Doomed(Run(cfg, n, evs)) < n
  {
    if more :| Run(cfg, n, evs + more).reg.free != [] {
      RunDoomed(cfg, n, evs, more);
      TablesExact(cfg, n, evs + more);
    }
    if Doomed(Run(cfg, n, evs)) < n {
      var more := Rescued(cfg, n, evs);
      RunDoomed(cfg, n, evs, more);
      TablesExact(cfg, n, evs + more);
      assert Run(cfg, n, evs + more).reg.free != [];
    }
  }
}
