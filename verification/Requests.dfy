/**
 Orders against the requests that made them: what an order is, when it becomes active and
 when its cancel takes effect, read off the events.
 */
module Requests {

  import opened Common
  import opened Orders
  import opened Engine
  import opened Lifecycle
  import opened ShadowRuns
  import opened ShadowTheorems

  // The request that was given order id c: the c-th placement in a registered market.
  function RequestOf(evs: seq<Event>, c: nat): Option<Event>
    decreases |evs|
  {
    if evs == [] then None
    else
      var before, ev := evs[..|evs| - 1], evs[|evs| - 1];
      if ev.PlaceOrder? && ev.market < MarketsIn(before) && Issued(before) + 1 == c then Some(ev) else RequestOf(before, c)
  }

  // The order is what the request asked for, active one placement latency later.
  predicate AsAsked(cfg: Config, l: Life, c: nat, req: Option<Event>) {
    var r := l.rec;
    && r.cid == c && req == Some(PlaceOrder(r.market, r.price, r.count, r.buyYes, r.placeTs, l.displayed))
    && r.activeTs == r.placeTs + cfg.placeLatency
  }

  // Its cancel takes effect one cancel latency after some request to cancel it.
  ghost predicate CancelAsAsked(cfg: Config, evs: seq<Event>, c: nat, at: nat) {
    exists k | 0 <= k < |evs| :: evs[k].CancelOrder? && evs[k].cid == c && at == evs[k].ts + cfg.cancelLatency
  }

  ghost predicate AllAsAsked(cfg: Config, s: Lives, evs: seq<Event>) {
    forall c | c in s.j :: AsAsked(cfg, s.j[c], c, RequestOf(evs, c))
      && (s.j[c].rec.cancelEff != 0 ==> CancelAsAsked(cfg, evs, c, s.j[c].rec.cancelEff))
  }

  predicate SameTerms(l: Life, l': Life) {
    && l'.rec.cid == l.rec.cid && l'.rec.market == l.rec.market && l'.rec.price == l.rec.price && l'.rec.count == l.rec.count
    && l'.rec.buyYes == l.rec.buyYes && l'.rec.placeTs == l.rec.placeTs && l'.rec.activeTs == l.rec.activeTs
    && l'.displayed == l.displayed
  }

  predicate KeepsTerms(cfg: Config, l: Life, ev: Event, l': Life, c: nat) {
    && SameTerms(l, l')
    && (|| l'.rec.cancelEff == l.rec.cancelEff
        || (ev.CancelOrder? && ev.cid == c && l'.rec.cancelEff == ev.ts + cfg.cancelLatency))
  }

  lemma AdvanceKeepsTerms(track: Track, j: Ideal, now: nat, c: nat)
    requires c in j
    ensures c in AdvanceAll(track, j, now)
    ensures var l' := AdvanceAll(track, j, now)[c]; SameTerms(j[c], l') && l'.rec.cancelEff == j[c].rec.cancelEff
  {
  }

  lemma StepKeepsTerms(cfg: Config, s: Lives, ev: Event, a: bool, c: nat)
    requires c in s.j && c <= s.cidSeq
    ensures var j := LivesStep(cfg, s, ev, a).j; c in j && KeepsTerms(cfg, s.j[c], ev, j[c], c)
  {
    if Named(ev, s.markets) {
      if ev.Tape? { AdvanceKeepsTerms(cfg.track, s.j, ev.p.ts, c); }
      else if ev.Settlement? { AdvanceKeepsTerms(cfg.track, s.j, ev.ts, c); }
      else if ev.Clock? { AdvanceKeepsTerms(cfg.track, s.j, ev.now, c); }
    }
  }

  lemma NewTerms(cfg: Config, s: Lives, ev: Event, a: bool, c: nat)
    requires c in LivesStep(cfg, s, ev, a).j && c !in s.j
    ensures c == s.cidSeq + 1 && ev.PlaceOrder? && ev.market < s.markets
    ensures AsAsked(cfg, LivesStep(cfg, s, ev, a).j[c], c, Some(ev)) && LivesStep(cfg, s, ev, a).j[c].rec.cancelEff == 0
  {
  }

  lemma CancelSnoc(cfg: Config, evs: seq<Event>, ev: Event, c: nat, at: nat)
    requires CancelAsAsked(cfg, evs, c, at) || (ev.CancelOrder? && ev.cid == c && at == ev.ts + cfg.cancelLatency)
    ensures CancelAsAsked(cfg, evs + [ev], c, at)
  {
    var all := evs + [ev];
    assert all[|evs|] == ev;
    if CancelAsAsked(cfg, evs, c, at) {
      var k :| 0 <= k < |evs| && evs[k].CancelOrder? && evs[k].cid == c && at == evs[k].ts + cfg.cancelLatency;
      assert all[k] == evs[k];
    }
  }

  lemma AskedStep(cfg: Config, s: Lives, evs: seq<Event>, ev: Event, a: bool)
    requires AllAsAsked(cfg, s, evs) && Dated(s, evs)
    ensures AllAsAsked(cfg, LivesStep(cfg, s, ev, a), evs + [ev])
  {
    var s', all := LivesStep(cfg, s, ev, a), evs + [ev];
    assert all[..|evs|] == evs;
    forall c | c in s'.j
      ensures AsAsked(cfg, s'.j[c], c, RequestOf(all, c))
      ensures s'.j[c].rec.cancelEff != 0 ==> CancelAsAsked(cfg, all, c, s'.j[c].rec.cancelEff)
    {
      if c in s.j {
        StepKeepsTerms(cfg, s, ev, a, c);
        if s'.j[c].rec.cancelEff != 0 { CancelSnoc(cfg, evs, ev, c, s'.j[c].rec.cancelEff); }
      } else {
        NewTerms(cfg, s, ev, a, c);
      }
    }
  }

  lemma {:induction false} LivesAsAsked(cfg: Config, evs: seq<Event>, ok: seq<bool>)
    requires |ok| == |evs|
    ensures AllAsAsked(cfg, LivesOn(cfg, evs, ok), evs)
    decreases |evs|
  {
    if evs != [] {
      var k := |evs| - 1;
      LivesAsAsked(cfg, evs[..k], ok[..k]);
      ListedMeans(cfg, evs[..k], ok[..k]);
      AskedStep(cfg, LivesOn(cfg, evs[..k], ok[..k]), evs[..k], evs[k], ok[k]);
      assert evs[..k] + [evs[k]] == evs;
    }
  }

  /** Over every run, the order in a slot is what the request of its id asked for: market,
      price, size, side and time of placement, active one placement latency later; and a
      cancel, if any, takes effect one cancel latency after some request to cancel it. */
  lemma OrdersAsAsked(cfg: Config, n: nat, evs: seq<Event>, i: nat)
    requires i < |Run(cfg, n, evs).reg.slots| && Run(cfg, n, evs).reg.slots[i].state != Free
    ensures var r := Run(cfg, n, evs).reg.slots[i];
      && (exists displayed :: RequestOf(evs, r.cid) == Some(PlaceOrder(r.market, r.price, r.count, r.buyYes, r.placeTs, displayed)))
      && r.activeTs == r.placeTs + cfg.placeLatency
      && (r.cancelEff != 0 ==> CancelAsAsked(cfg, evs, r.cid, r.cancelEff))
  {
    SlotLife(cfg, n, evs, i);
    LivesAsAsked(cfg, evs, Room(cfg, n, evs));
    var r := Run(cfg, n, evs).reg.slots[i];
    assert AsAsked(cfg, LivesOf(cfg, n, evs).j[r.cid], r.cid, RequestOf(evs, r.cid));
  }

  // ---------------------------------------------------------------- every request counts

  lemma StepKeys(cfg: Config, s: Lives, ev: Event, a: bool)
    ensures LivesStep(cfg, s, ev, a).j.Keys == s.j.Keys + if ev.PlaceOrder? && ev.market < s.markets && a then {s.cidSeq + 1} else {}
  {
  }

  lemma StepDrops(e: Engine, ev: Event)
    requires Indexed(e)
    ensures Step(e, ev).droppedFull == e.droppedFull + if ev.PlaceOrder? && ev.market < |e.books| && |e.reg.free| == 0 then 1 else 0
  {
  }

  /** Every placement request in a registered market was given a slot or counted as dropped. */
  lemma {:induction false} RequestsCounted(cfg: Config, n: nat, evs: seq<Event>)
    ensures |LivesOf(cfg, n, evs).j.Keys| + Run(cfg, n, evs).droppedFull == Issued(evs)
    decreases |evs|
  {
    if evs != [] {
      var k := |evs| - 1;
      var e, s := Run(cfg, n, evs[..k]), LivesOf(cfg, n, evs[..k]);
      RequestsCounted(cfg, n, evs[..k]);
      RunAgrees(cfg, n, evs[..k]);
      ListedMeans(cfg, evs[..k], Room(cfg, n, evs[..k]));
      assert Room(cfg, n, evs)[..k] == Room(cfg, n, evs[..k]);
      StepKeys(cfg, s, evs[k], |e.reg.free| > 0);
      StepDrops(e, evs[k]);
      assert s.cidSeq + 1 !in s.j.Keys;
    }
  }
}
