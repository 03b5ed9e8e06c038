/**
 Settlement accounting of include/trading/shadow/ledger.hpp: per-market aggregates of
 what was bought and sold, and the settlement profit computed from them.
 */
module Ledger {

  import opened Orders

  // cid is not in the source's record; it names the order for the fill history.
  datatype Fill = Fill(cid: nat, idx: nat, market: nat, price: int, qty: int, buyYes: bool, ts: nat)

  datatype MarketBook = MarketBook(
    bought: int, boughtCents: int, sold: int, soldCents: int, settled: bool, settledYes: bool, lastTrade: int)

  const NEW_BOOK := MarketBook(0, 0, 0, 0, false, false, -1)

  function Credited(b: MarketBook, f: Fill): MarketBook {
    if f.buyYes then b.(bought := b.bought + f.qty, boughtCents := b.boughtCents + f.qty * f.price)
    else b.(sold := b.sold + f.qty, soldCents := b.soldCents + f.qty * f.price)
  }

  function OnFill(books: seq<MarketBook>, f: Fill): (r: seq<MarketBook>)
    requires f.market < |books|
    ensures |r| == |books|
  {
    books[f.market := Credited(books[f.market], f)]
  }

  function OnSettle(books: seq<MarketBook>, market: nat, yesWins: bool): seq<MarketBook>
    requires market < |books|
  {
    books[market := books[market].(settled := true, settledYes := yesWins)]
  }

  function OnTrade(books: seq<MarketBook>, market: nat, price: int): seq<MarketBook>
    requires market < |books|
  {
    books[market := books[market].(lastTrade := price)]
  }

  function GrossPnlCents(b: MarketBook): int {
    var s := if b.settledYes then 100 else 0;
    (b.bought * s - b.boughtCents) + (b.soldCents - b.sold * s)
  }

  // ---------------------------------------------------------------- the fills behind a book

  // What one fill pays at settlement: a YES contract is worth 100 or 0.
  function Payoff(f: Fill, yes: bool): int {
    var s := if yes then 100 else 0;
    if f.buyYes then f.qty * (s - f.price) else f.qty * (f.price - s)
  }

  function Payoffs(fills: seq<Fill>, market: nat, yes: bool): int
    decreases |fills|
  {
    if fills == [] then 0
    else Payoffs(fills[..|fills| - 1], market, yes) +
         (var f := fills[|fills| - 1]; if f.market == market then Payoff(f, yes) else 0)
  }

  // What a fill adds to the risk moved into fills of one market, or (market < 0) of all.
  function RiskIn(f: Fill, market: int): int {
    if market < 0 || f.market == market then RiskCents(f.qty, f.price, f.buyYes) else 0
  }

  function FilledRisk(fills: seq<Fill>, market: int): int
    decreases |fills|
  {
    if fills == [] then 0
    else FilledRisk(fills[..|fills| - 1], market) +
         RiskIn(fills[|fills| - 1], market)
  }

  function FilledQty(fills: seq<Fill>, cid: nat): int
    decreases |fills|
  {
    if fills == [] then 0
    else FilledQty(fills[..|fills| - 1], cid) +
         (var f := fills[|fills| - 1]; if f.cid == cid then f.qty else 0)
  }

  lemma PayoffsPush(fills: seq<Fill>, f: Fill, m: nat, yes: bool)
    ensures Payoffs(fills + [f], m, yes) == Payoffs(fills, m, yes) + (if f.market == m then Payoff(f, yes) else 0)
  {
    assert (fills + [f])[..|fills|] == fills;
  }

  lemma RiskPush(fills: seq<Fill>, f: Fill, m: int)
    ensures FilledRisk(fills + [f], m) == FilledRisk(fills, m) + RiskIn(f, m)
  {
    assert (fills + [f])[..|fills|] == fills;
  }

  lemma QtyPush(fills: seq<Fill>, f: Fill, c: nat)
    ensures FilledQty(fills + [f], c) == FilledQty(fills, c) + (if f.cid == c then f.qty else 0)
  {
    assert (fills + [f])[..|fills|] == fills;
  }

  // The aggregates of a book are those of the fills delivered to it, whichever way the
  // market settles.
  ghost predicate BookExact(b: MarketBook, fills: seq<Fill>, market: nat) {
    && (forall yes :: GrossPnlCents(b.(settledYes := yes)) == Payoffs(fills, market, yes))
    && b.boughtCents + (100 * b.sold - b.soldCents) == FilledRisk(fills, market)
  }

  ghost predicate BooksExact(books: seq<MarketBook>, fills: seq<Fill>) {
    && (forall m | 0 <= m < |books| :: BookExact(books[m], fills, m))
    && (forall k | 0 <= k < |fills| :: fills[k].market < |books|)
  }

  // A market that has just been registered has no fills.
  lemma {:induction false} NewBookExact(fills: seq<Fill>, m: nat, yes: bool)
    requires forall k | 0 <= k < |fills| :: fills[k].market < m
    ensures Payoffs(fills, m, yes) == 0 == FilledRisk(fills, m)
    decreases |fills|
  {
    if fills != [] { NewBookExact(fills[..|fills| - 1], m, yes); }
  }

  lemma RegisterExact(books: seq<MarketBook>, fills: seq<Fill>)
    requires BooksExact(books, fills)
    ensures BooksExact(books + [NEW_BOOK], fills)
  {
    NewBookExact(fills, |books|, true);
    NewBookExact(fills, |books|, false);
    assert BookExact(NEW_BOOK, fills, |books|);
    var books' := books + [NEW_BOOK];
    forall m | 0 <= m < |books'| ensures BookExact(books'[m], fills, m) {
      if m < |books| { assert BookExact(books[m], fills, m); }
    }
  }

  lemma OnFillExact(books: seq<MarketBook>, fills: seq<Fill>, f: Fill)
    requires f.market < |books| && BooksExact(books, fills)
    ensures BooksExact(OnFill(books, f), fills + [f])
  {
    forall m | 0 <= m < |books| ensures BookExact(OnFill(books, f)[m], fills + [f], m) {
      assert BookExact(books[m], fills, m);
      FillOneBook(books[m], fills, f, m, OnFill(books, f)[m]);
    }
  }

  lemma FillOneBook(b: MarketBook, fills: seq<Fill>, f: Fill, m: nat, b': MarketBook)
    requires BookExact(b, fills, m) && b' == (if f.market == m then Credited(b, f) else b)
    ensures BookExact(b', fills + [f], m)
  {
    forall yes ensures GrossPnlCents(b'.(settledYes := yes)) == Payoffs(fills + [f], m, yes) {
      PayoffsPush(fills, f, m, yes);
      FillPnl(b.(settledYes := yes), f);
      assert f.market == m ==> Credited(b.(settledYes := yes), f) == b'.(settledYes := yes);
    }
    RiskPush(fills, f, m);
    FillRisk(b, f);
  }

  lemma FillPnl(b: MarketBook, f: Fill)
    ensures GrossPnlCents(Credited(b, f)) == GrossPnlCents(b) + Payoff(f, b.settledYes)
  {
    var s := if b.settledYes then 100 else 0;
    if f.buyYes {
      assert (b.bought + f.qty) * s == b.bought * s + f.qty * s;
      assert f.qty * (s - f.price) == f.qty * s - f.qty * f.price;
    } else {
      assert (b.sold + f.qty) * s == b.sold * s + f.qty * s;
      assert f.qty * (f.price - s) == f.qty * f.price - f.qty * s;
    }
  }

  lemma FillRisk(b: MarketBook, f: Fill)
    ensures var b' := Credited(b, f);
            b'.boughtCents + (100 * b'.sold - b'.soldCents) ==
            b.boughtCents + (100 * b.sold - b.soldCents) + RiskCents(f.qty, f.price, f.buyYes)
  {
    assert f.qty * (100 - f.price) == 100 * f.qty - f.qty * f.price;
  }

  /** The risk of a fill is what it loses in the worse of the two settlements. */
  lemma RiskIsWorstLoss(f: Fill)
    requires f.qty >= 0
    ensures -RiskCents(f.qty, f.price, f.buyYes) == if Payoff(f, true) < Payoff(f, false) then Payoff(f, true) else Payoff(f, false)
  {
    assert f.qty * (100 - f.price) == 100 * f.qty - f.qty * f.price;
    assert f.qty * (f.price - 100) == f.qty * f.price - 100 * f.qty;
  }

  /** However a market settles, its aggregated profit is the sum of its fills' payoffs
      and never below minus the risk those fills had tied up. */
  lemma {:induction false} PnlBoundedByRisk(b: MarketBook, fills: seq<Fill>, market: nat, yes: bool)
    requires BookExact(b, fills, market) && forall i | 0 <= i < |fills| :: fills[i].qty >= 0
    ensures GrossPnlCents(b.(settledYes := yes)) == Payoffs(fills, market, yes) >= -FilledRisk(fills, market)
  {
    PayoffsAboveRisk(fills, market, yes);
  }

  lemma {:induction false} PayoffsAboveRisk(fills: seq<Fill>, market: nat, yes: bool)
    requires forall i | 0 <= i < |fills| :: fills[i].qty >= 0
    ensures Payoffs(fills, market, yes) >= -FilledRisk(fills, market)
    decreases |fills|
  {
    if fills != [] {
      var f := fills[|fills| - 1];
      PayoffsAboveRisk(fills[..|fills| - 1], market, yes);
      var s := if yes then 100 else 0;
      assert f.qty * (s - f.price) == f.qty * s - f.qty * f.price;
      assert f.qty * (f.price - s) + f.qty * (100 - f.price) == f.qty * (100 - s);
      assert f.qty * s >= 0 && f.qty * (100 - s) >= 0;
    }
  }

  // Settling and marking do not touch the aggregates.
  lemma MarkingKeepsExact(books: seq<MarketBook>, fills: seq<Fill>, market: nat, b: MarketBook)
    requires market < |books| && BooksExact(books, fills)
    requires b == books[market].(settled := b.settled, settledYes := b.settledYes, lastTrade := b.lastTrade)
    ensures BooksExact(books[market := b], fills)
  {
    var books' := books[market := b];
    forall m | 0 <= m < |books'| ensures BookExact(books'[m], fills, m) {
      assert BookExact(books[m], fills, m);
      if m == market {
        forall yes ensures GrossPnlCents(b.(settledYes := yes)) == Payoffs(fills, m, yes) {
          assert GrossPnlCents(books[m].(settledYes := yes)) == Payoffs(fills, m, yes);
        }
      }
    }
  }
}
