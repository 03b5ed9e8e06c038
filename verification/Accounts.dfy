/**
 What the ledger says about a market after a run: how it settled, what it last traded at,
 and what its fills pay.
 */
module Accounts {

  import opened Ledger
  import opened Engine
  import opened Lifecycle
  import opened Refinement
  import opened ShadowRuns
  import opened ShadowTheorems

  // ---------------------------------------------------------------- read off the events

  datatype Side = Open | Yes | No

  // The side that won the last settlement of market m, if there was one.
  function LastSettled(evs: seq<Event>, m: nat): Side
    decreases |evs|
  {
    if evs == [] then Open
    else
      var before, ev := evs[..|evs| - 1], evs[|evs| - 1];
      if ev.Settlement? && ev.market == m && m < MarketsIn(before) then if ev.yesWins then Yes else No
      else LastSettled(before, m)
  }

  // The price of its last print, -1 before the first.
  function LastPrice(evs: seq<Event>, m: nat): int
    decreases |evs|
  {
    if evs == [] then -1
    else
      var before, ev := evs[..|evs| - 1], evs[|evs| - 1];
      if ev.Tape? && ev.p.market == m && m < MarketsIn(before) then ev.p.price else LastPrice(before, m)
  }

  // ---------------------------------------------------------------- what the books say

  predicate Says(b: MarketBook, side: Side, price: int) {
    b.settled == (side != Open) && b.settledYes == (side == Yes) && b.lastTrade == price
  }

  predicate SettledAlike(b: MarketBook, b': MarketBook) {
    b'.settled == b.settled && b'.settledYes == b.settledYes
  }

  predicate SameMarks(b: MarketBook, b': MarketBook) {
    SettledAlike(b, b') && b'.lastTrade == b.lastTrade
  }

  ghost predicate AllSameMarks(books: seq<MarketBook>, books': seq<MarketBook>) {
    |books'| == |books| && forall m | 0 <= m < |books| :: SameMarks(books[m], books'[m])
  }

  lemma {:induction false} DeliverMarks(e: Engine)
    requires Indexed(e)
    ensures AllSameMarks(e.books, Deliver(e).books)
    decreases |e.scratch|
  {
    if |e.scratch| > 0 {
      DeliverMarks(DeliverOne(e));
      assert AllSameMarks(e.books, DeliverOne(e).books);
    }
  }

  ghost predicate Marked(e: Engine, ev: Event, e': Engine)
    requires Indexed(e)
  {
    if !Named(ev, |e.books|) then AllSameMarks(e.books, e'.books)
    else if ev.NewMarket? then e'.books == e.books + [NEW_BOOK]
    else
      && |e'.books| == |e.books|
      && forall m | 0 <= m < |e.books| ::
           if ev.Tape? && ev.p.market == m then SettledAlike(e.books[m], e'.books[m]) && e'.books[m].lastTrade == ev.p.price
           else if ev.Settlement? && ev.market == m then Says(e'.books[m], if ev.yesWins then Yes else No, e.books[m].lastTrade)
           else SameMarks(e.books[m], e'.books[m])
  }

  lemma TapeMarks(e: Engine, p: Print)
    requires Indexed(e) && p.market < |e.books|
    ensures Marked(e, Tape(p), Trade(e, p))
  {
    DeliverMarks(HitFrom(Advance(e, p.ts), 0, p));
  }

  lemma SettleMarks(e: Engine, m: nat, yes: bool, ts: nat)
    requires Indexed(e) && m < |e.books|
    ensures Marked(e, Settlement(m, yes, ts), Settle(e, m, yes, ts))
  {
  }

  lemma StepMarks(e: Engine, ev: Event)
    requires Indexed(e)
    ensures Marked(e, ev, Step(e, ev))
  {
    if Named(ev, |e.books|) {
      if ev.Tape? { TapeMarks(e, ev.p); } else if ev.Settlement? { SettleMarks(e, ev.market, ev.yesWins, ev.ts); }
    }
  }

  ghost predicate Kept(e: Engine, evs: seq<Event>) {
    |e.books| == MarketsIn(evs) && forall m | 0 <= m < |e.books| :: Says(e.books[m], LastSettled(evs, m), LastPrice(evs, m))
  }

  lemma {:induction false} NothingYet(evs: seq<Event>, m: nat)
    requires m >= MarketsIn(evs)
    ensures LastSettled(evs, m) == Open && LastPrice(evs, m) == -1
    decreases |evs|
  {
    if evs != [] { NothingYet(evs[..|evs| - 1], m); }
  }

  lemma KeptStep(e: Engine, evs: seq<Event>, ev: Event, e': Engine)
    requires Indexed(e) && Kept(e, evs) && Marked(e, ev, e')
    ensures Kept(e', evs + [ev])
  {
    assert (evs + [ev])[..|evs|] == evs;
    if ev.NewMarket? { NothingYet(evs, |e.books|); }
  }

  /** After every run a market is settled exactly if it was settled by some event, for the
      side that won the last of those, and its last trade is the last print of it. */
  lemma {:induction false} MarksExact(cfg: Config, n: nat, evs: seq<Event>)
    ensures var e := Run(cfg, n, evs);
      |e.books| == MarketsIn(evs) && forall m | 0 <= m < |e.books| :: Says(e.books[m], LastSettled(evs, m), LastPrice(evs, m))
    decreases |evs|
  {
    if evs != [] {
      var k := |evs| - 1;
      MarksExact(cfg, n, evs[..k]);
      StepMarks(Run(cfg, n, evs[..k]), evs[k]);
      KeptStep(Run(cfg, n, evs[..k]), evs[..k], evs[k], Run(cfg, n, evs));
      assert evs[..k] + [evs[k]] == evs;
    }
  }

  // ---------------------------------------------------------------- money

  lemma BackedBook(e: Engine, m: nat, j: Ideal, yes: bool)
    requires m < |e.books| && BooksExact(e.books, e.log) && FillsMatch(e.log, j) && e.books[m].settledYes == yes
    ensures GrossPnlCents(e.books[m]) == Payoffs(e.log, m, yes) >= -FilledRisk(e.log, m)
  {
    var b := e.books[m];
    assert BookExact(b, e.log, m);
    PnlBoundedByRisk(b, e.log, m, yes);
    assert b.(settledYes := yes) == b;
  }

  /** A market's aggregated profit is the sum of what its fills pay given the side that won
      its last settlement, and is never below minus the risk those fills had tied up. */
  lemma PnlBacked(cfg: Config, n: nat, evs: seq<Event>, m: nat)
    requires m < MarketsIn(evs)
    ensures var e := Run(cfg, n, evs);
      m < |e.books| && GrossPnlCents(e.books[m]) == Payoffs(e.log, m, LastSettled(evs, m) == Yes) >= -FilledRisk(e.log, m)
  {
    RunAgrees(cfg, n, evs);
    MarksExact(cfg, n, evs);
    var e := Run(cfg, n, evs);
    assert e.log + e.scratch == e.log;
    BackedBook(e, m, LivesOf(cfg, n, evs).j, LastSettled(evs, m) == Yes);
  }

  /** In particular, when a market settles, its book is settled and its profit is what its
      fills pay for the side that won. */
  lemma SettlementPays(cfg: Config, n: nat, evs: seq<Event>, m: nat, yes: bool, ts: nat)
    requires m < MarketsIn(evs)
    ensures var e := Run(cfg, n, evs + [Settlement(m, yes, ts)]);
      m < |e.books| && e.books[m].settled && GrossPnlCents(e.books[m]) == Payoffs(e.log, m, yes)
  {
    var all := evs + [Settlement(m, yes, ts)];
    assert all[..|evs|] == evs && all[|evs|] == Settlement(m, yes, ts);
    MarksExact(cfg, n, all);
    PnlBacked(cfg, n, all, m);
  }
}
