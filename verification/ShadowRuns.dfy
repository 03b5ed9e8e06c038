/**
 Whole operations and whole runs of the shadow engine: each operation does to the
 engine's tables exactly what its life-cycle counterpart does to every order, and the
 agreement holds after every sequence of operations.
 */
module ShadowRuns {

  import opened Orders
  import opened Ledger
  import opened Engine
  import opened Lifecycle
  import opened Refinement

  // ---------------------------------------------------------------- delivering fills

  lemma DeliverRefines(e: Engine, j: Ideal)
    requires Refines(e, j) && |e.scratch| > 0
    ensures Refines(DeliverOne(e), j) && DeliverOne(e).cfg == e.cfg
  {
    DeliverStruct(e);
    DeliverBooks(e);
    DeliverMatch(e, j);
    DeliverQueued(e);
  }

  lemma DeliverBooks(e: Engine)
    requires Indexed(e) && BooksExact(e.books, e.log) && |e.scratch| > 0
    ensures BooksExact(DeliverOne(e).books, DeliverOne(e).log) && DeliverOne(e).cfg == e.cfg
  {
    OnFillExact(e.books, e.log, e.scratch[0]);
  }

  lemma DeliverMatch(e: Engine, j: Ideal)
    requires Indexed(e) && CidIndex(e.reg, e.cidSeq) && Match(e, j) && |e.scratch| > 0
    ensures Match(DeliverOne(e), j)
  {
    var e', f := DeliverOne(e), e.scratch[0];
    assert e'.log + e'.scratch == e.log + e.scratch;
    if e.reg.slots[f.idx].state == Filled {
      var c := e.reg.slots[f.idx].cid;
      assert c in e.reg.byCid && e.reg.byCid[c] == f.idx;
      MatchRecycled(e, f.idx, e', j, j[c]);
      assert j[c := j[c]] == j;
    }
  }

  lemma DeliverQueued(e: Engine)
    requires Indexed(e) && Queued(e) && |e.scratch| > 0
    ensures Queued(DeliverOne(e))
  {
    var e', f := DeliverOne(e), e.scratch[0];
    forall i | 0 <= i < |e'.reg.slots|
      ensures e'.reg.slots[i].state != Canceled
      ensures e'.reg.slots[i].state == Filled ==> exists k | 0 <= k < |e'.scratch| :: e'.scratch[k].idx == i
    {
      assert e.reg.slots[i].state != Canceled;
      if e'.reg.slots[i].state == Filled {
        var k :| 0 <= k < |e.scratch| && e.scratch[k].idx == i;
        assert e'.scratch[k - 1].idx == i;
      }
    }
  }

  lemma {:induction false} DeliverLoop(e: Engine, j: Ideal)
    requires Refines(e, j)
    ensures Refines(Deliver(e), j) && Deliver(e).cfg == e.cfg && Deliver(e).scratch == []
    decreases |e.scratch|
  {
    if |e.scratch| > 0 {
      DeliverRefines(e, j);
      DeliverLoop(DeliverOne(e), j);
      assert Deliver(e) == Deliver(DeliverOne(e));
    }
  }

  lemma TradeRefines(e: Engine, p: Print, j: Ideal)
    requires Refines(e, j) && p.market < |e.books|
    ensures Refines(Trade(e, p), HitAll(e.cfg.track, AdvanceAll(e.cfg.track, j, p.ts), p))
    ensures Trade(e, p).cfg == e.cfg && Trade(e, p).scratch == []
  {
    var a, ja := Advance(e, p.ts), AdvanceAll(e.cfg.track, j, p.ts);
    AdvanceRefines(e, p.ts, j);
    HitLoop(a, 0, p, ja);
    HitEveryone(a, p, ja);
    var h, jh := HitFrom(a, 0, p), HitAll(e.cfg.track, ja, p);
    DeliverLoop(h, jh);
    var d := Deliver(h);
    var b := d.books[p.market].(lastTrade := p.price);
    Marked(d, jh, p.market, b);
    assert Trade(e, p) == d.(books := d.books[p.market := b]);
  }

  // The ledger marks a market; nobody else looks at the mark.
  lemma Marked(e: Engine, j: Ideal, market: nat, b: MarketBook)
    requires Refines(e, j) && market < |e.books|
    requires b == e.books[market].(settled := b.settled, settledYes := b.settledYes, lastTrade := b.lastTrade)
    ensures Refines(e.(books := e.books[market := b]), j)
  {
    var books := e.books[market := b];
    MarkingKeepsExact(e.books, e.log, market, b);
    MarkedStruct(e, books);
    assert Match(e.(books := books), j) && Queued(e.(books := books));
  }

  lemma MarkedStruct(e: Engine, books: seq<MarketBook>)
    requires Struct(e) && |books| >= |e.books|
    ensures Struct(e.(books := books))
  {
  }

  // ---------------------------------------------------------------- settlement

  // The orders of the first n list entries are no longer live in this market.
  ghost predicate SettledBelow(e: Engine, list: seq<nat>, n: nat, market: nat)
    requires Indexed(e) && Within(list, |e.reg.slots|) && n <= |list|
  {
    forall a | 0 <= a < n :: !(e.reg.slots[list[a]].market == market && IsLive(e.reg.slots[list[a]].state))
  }

  lemma SettleAgain(j: Ideal, c: nat, market: nat)
    requires c in j
    ensures SettleAll(j[c := Settled(j[c], market)], market) == SettleAll(j, market)
  {
  }

  lemma SettleRetires(e: Engine, i: nat, market: nat, j: Ideal)
    requires Refines(e, j) && i < |e.reg.slots| && i in Listed(e.byMarket, market)
    requires e.reg.slots[i].market == market && IsLive(e.reg.slots[i].state)
    ensures var c := e.reg.slots[i].cid; c in j && Refines(SettleOne(e, i, market), j[c := Settled(j[c], market)])
  {
    var r := e.reg.slots[i];
    assert r.cid in e.reg.byCid && e.reg.byCid[r.cid] == i;
    assert j[r.cid].rec == r && j[r.cid].listed;
    RetireRefines(e, i, if r.state == PendingCancel then Canceled else Expired, j);
  }

  lemma SettleFrame(e: Engine, list: seq<nat>, n: nat, market: nat)
    requires Indexed(e) && GaugeExact(e.reg.slots, e.reg.gauge)
    requires Within(list, |e.reg.slots|) && n < |list| && SettledBelow(e, list, n, market)
    ensures var e' := SettleOne(e, list[n], market);
      SettledBelow(e', list, n + 1, market) && e'.cfg == e.cfg && e'.scratch == e.scratch
  {
    var i := list[n];
    var r := e.reg.slots[i];
    if r.market == market && IsLive(r.state) {
      var to := if r.state == PendingCancel then Canceled else Expired;
      RetireSlots(e, i, to);
      RetireFrame(e, i, to);
    }
  }

  lemma SettleStep(e: Engine, list: seq<nat>, n: nat, market: nat, j: Ideal) returns (j1: Ideal)
    requires Refines(e, j) && Listed(e.byMarket, market) == list && Within(list, |e.reg.slots|) && n < |list|
    ensures Refines(SettleOne(e, list[n], market), j1) && SettleAll(j1, market) == SettleAll(j, market)
  {
    var r := e.reg.slots[list[n]];
    if r.market == market && IsLive(r.state) {
      SettleRetires(e, list[n], market, j);
      SettleAgain(j, r.cid, market);
      j1 := j[r.cid := Settled(j[r.cid], market)];
    } else {
      j1 := j;
    }
  }

  lemma {:induction false} SettleLoop(e: Engine, list: seq<nat>, n: nat, market: nat, j: Ideal)
    requires Refines(e, j) && Listed(e.byMarket, market) == list && Within(list, |e.reg.slots|) && n <= |list|
    requires SettledBelow(e, list, n, market)
    ensures var e' := SettleFrom(e, list, n, market);
      Refines(e', SettleAll(j, market)) && e'.cfg == e.cfg && e'.scratch == e.scratch
    decreases |list| - n
  {
    if n == |list| {
      NobodyToSettle(e, list, market, j);
    } else {
      var e1 := SettleOne(e, list[n], market);
      var j1 := SettleStep(e, list, n, market, j);
      SettleFrame(e, list, n, market);
      SettleLoop(e1, list, n + 1, market, j1);
      assert SettleFrom(e, list, n, market) == SettleFrom(e1, list, n + 1, market);
    }
  }

  lemma NobodyToSettle(e: Engine, list: seq<nat>, market: nat, j: Ideal)
    requires Indexed(e) && RecsMatch(e.reg, j) && ListedMatch(e.byMarket, e.reg, j) && Listed(e.byMarket, market) == list
    requires Within(list, |e.reg.slots|) && SettledBelow(e, list, |list|, market)
    ensures SettleAll(j, market) == j
  {
    forall c | c in j ensures Settled(j[c], market) == j[c] {
      if j[c].rec.market == market && j[c].listed && c in e.reg.byCid {
        assert e.reg.byCid[c] in list;
      }
    }
  }

  lemma UnlistRefines(e: Engine, market: nat, j: Ideal)
    requires Refines(e, j)
    ensures Refines(e.(byMarket := e.byMarket - {market}), UnlistAll(j, market))
  {
    UnlistStruct(e, market);
    UnlistMatch(e, market, j);
    assert Queued(e.(byMarket := e.byMarket - {market}));
  }

  lemma UnlistStruct(e: Engine, market: nat)
    requires Struct(e)
    ensures Struct(e.(byMarket := e.byMarket - {market}))
  {
  }

  lemma UnlistMatch(e: Engine, market: nat, j: Ideal)
    requires Match(e, j)
    ensures Match(e.(byMarket := e.byMarket - {market}), UnlistAll(j, market))
  {
    var e', j' := e.(byMarket := e.byMarket - {market}), UnlistAll(j, market);
    forall c | c in e'.reg.byCid
      ensures c in j' && (j'[c].listed <==> e'.reg.byCid[c] in Listed(e'.byMarket, j'[c].rec.market))
    {
      assert j[c].listed <==> e.reg.byCid[c] in Listed(e.byMarket, j[c].rec.market);
    }
  }

  lemma SettleRefines(e: Engine, market: nat, yesWins: bool, ts: nat, j: Ideal)
    requires Refines(e, j) && market < |e.books|
    ensures Refines(Settle(e, market, yesWins, ts), UnlistAll(SettleAll(AdvanceAll(e.cfg.track, j, ts), market), market))
    ensures Settle(e, market, yesWins, ts).cfg == e.cfg && Settle(e, market, yesWins, ts).scratch == e.scratch
  {
    var a, ja := Advance(e, ts), AdvanceAll(e.cfg.track, j, ts);
    AdvanceRefines(e, ts, j);
    var list := Listed(a.byMarket, market);
    SettleLoop(a, list, 0, market, ja);
    var s, js := SettleFrom(a, list, 0, market), SettleAll(ja, market);
    UnlistRefines(s, market, js);
    var u := s.(byMarket := s.byMarket - {market});
    var b := u.books[market].(settled := true, settledYes := yesWins);
    Marked(u, UnlistAll(js, market), market, b);
    assert Settle(e, market, yesWins, ts) == u.(books := u.books[market := b]);
  }

  // ---------------------------------------------------------------- requests

  lemma PlaceRefines(e: Engine, market: nat, price: int, count: int, buyYes: bool, ts: nat, displayed: int, j: Ideal)
    requires Refines(e, j) && market < |e.books| && |e.reg.free| > 0
    ensures Refines(PlaceAccepted(e, market, price, count, buyYes, ts, displayed),
                    j[e.cidSeq + 1 := NewLife(e.cfg, e.cidSeq + 1, market, price, count, buyYes, ts, displayed)])
  {
    var e' := PlaceAccepted(e, market, price, count, buyYes, ts, displayed);
    PlaceStruct(e, market, price, count, buyYes, ts, displayed);
    PlaceSlots(e, market, price, count, buyYes, ts, displayed);
    PlaceMatch(e, NewLife(e.cfg, e.cidSeq + 1, market, price, count, buyYes, ts, displayed), e', j);
    QueuedKept(e, e.reg.free[|e.reg.free| - 1], e'.reg.slots[e.reg.free[|e.reg.free| - 1]], e');
  }

  // What an accepted placement of life l writes.
  ghost predicate Placed(e: Engine, l: Life, e': Engine)
    requires |e.reg.free| > 0 && e.reg.free[|e.reg.free| - 1] < |e.reg.slots|
  {
    var i := e.reg.free[|e.reg.free| - 1];
    && e.reg.slots[i].state == Free && l.rec.state != Free
    && e'.reg.slots == e.reg.slots[i := l.rec] && e'.reg.byCid == e.reg.byCid[l.rec.cid := i]
    && e'.pending == e.pending + [Pending(i, l.displayed)]
    && e'.byMarket == e.byMarket[l.rec.market := Listed(e.byMarket, l.rec.market) + [i]]
    && e'.log == e.log && e'.scratch == e.scratch
  }

  lemma PlaceListed(e: Engine, l: Life, e': Engine, j: Ideal)
    requires |e.reg.free| > 0 && e.reg.free[|e.reg.free| - 1] < |e.reg.slots| && CidIndex(e.reg, e.cidSeq) && Placed(e, l, e')
    requires ListedMatch(e.byMarket, e.reg, j) && l.listed && l.rec.cid !in e.reg.byCid
    ensures ListedMatch(e'.byMarket, e'.reg, j[l.rec.cid := l])
  {
    var i, c, j' := e.reg.free[|e.reg.free| - 1], l.rec.cid, j[l.rec.cid := l];
    forall d | d in e'.reg.byCid
      ensures d in j' && (j'[d].listed <==> e'.reg.byCid[d] in Listed(e'.byMarket, j'[d].rec.market))
    {
      if d != c { assert e.reg.byCid[d] != i; }
    }
  }

  lemma PlaceRecs(e: Engine, l: Life, e': Engine, j: Ideal)
    requires |e.reg.free| > 0 && e.reg.free[|e.reg.free| - 1] < |e.reg.slots| && CidIndex(e.reg, e.cidSeq) && Placed(e, l, e')
    requires RecsMatch(e.reg, j) && l.rec.cid !in e.reg.byCid && l.rec.cid !in j
    ensures RecsMatch(e'.reg, j[l.rec.cid := l])
  {
  }

  lemma PlaceDisplayed(e: Engine, l: Life, e': Engine, j: Ideal)
    requires |e.reg.free| > 0 && e.reg.free[|e.reg.free| - 1] < |e.reg.slots| && Placed(e, l, e')
    requires DisplayedMatch(e.pending, e.reg.slots, j) && l.rec.cid !in j
    requires forall k | 0 <= k < |e.pending| :: e.pending[k].idx < |e.reg.slots| && e.reg.slots[e.pending[k].idx].state != Free
    ensures DisplayedMatch(e'.pending, e'.reg.slots, j[l.rec.cid := l])
  {
  }

  lemma NewcomerUnfilled(fills: seq<Fill>, j: Ideal, c: nat, l: Life)
    requires FillsMatch(fills, j) && c !in j && l.rec.filled == 0
    ensures FillsMatch(fills, j[c := l])
  {
  }

  lemma PlaceMatch(e: Engine, l: Life, e': Engine, j: Ideal)
    requires Indexed(e) && CidIndex(e.reg, e.cidSeq) && Match(e, j) && |e.reg.free| > 0
    requires l.listed && l.rec.filled == 0 && l.rec.cid == e.cidSeq + 1 == e'.cidSeq && Placed(e, l, e')
    requires forall k | 0 <= k < |e.pending| :: e.reg.slots[e.pending[k].idx].state != Free
    ensures Match(e', j[l.rec.cid := l])
  {
    assert l.rec.cid !in j && l.rec.cid !in e.reg.byCid;
    PlaceListed(e, l, e', j);
    PlaceRecs(e, l, e', j);
    PlaceDisplayed(e, l, e', j);
    NewcomerUnfilled(e.log + e.scratch, j, l.rec.cid, l);
  }

  lemma CancelRefines(e: Engine, cid: nat, ts: nat, j: Ideal)
    requires Refines(e, j)
    ensures cid in j ==> Refines(Cancel(e, cid, ts), j[cid := CancelAsked(e.cfg, j[cid], ts)])
    ensures cid !in j ==> Cancel(e, cid, ts) == e
  {
    if cid in e.reg.byCid {
      var i := e.reg.byCid[cid];
      var e', l := Cancel(e, cid, ts), CancelAsked(e.cfg, j[cid], ts);
      CancelStruct(e, cid, ts);
      CancelSlots(e, cid, ts);
      assert e' == e.(reg := e'.reg, canceling := e'.canceling);
      CancelMatch(e, i, l, e', j);
      CancelQueued(e, i, l.rec, e');
    } else if cid in j {
      assert j[cid := j[cid]] == j;
    }
  }

  lemma CancelMatch(e: Engine, i: nat, l: Life, e': Engine, j: Ideal)
    requires CidIndex(e.reg, e.cidSeq) && Match(e, j) && i < |e.reg.slots| && e.reg.slots[i].state != Free
    requires e' == e.(reg := e'.reg, canceling := e'.canceling) && e'.reg == e.reg.(slots := e.reg.slots[i := l.rec])
    requires l.rec.cid in j && l.rec.cid == e.reg.slots[i].cid && l.rec.market == e.reg.slots[i].market
    requires var was := j[l.rec.cid]; l.displayed == was.displayed && l.listed == was.listed && l.rec.filled == was.rec.filled
    ensures Match(e', j[l.rec.cid := l])
  {
    MatchRewritten(e, i, l.rec, e', j, l);
    SameFills(e.log + e.scratch, j, l.rec.cid, l);
  }

  lemma CancelQueued(e: Engine, i: nat, r: OrderRec, e': Engine)
    requires Queued(e) && i < |e.reg.slots| && e'.reg.slots == e.reg.slots[i := r] && e'.scratch == e.scratch
    requires r == e.reg.slots[i] || (r.state != Canceled && r.state != Filled)
    ensures Queued(e')
  {
    if r == e.reg.slots[i] { assert e'.reg.slots == e.reg.slots; }
  }

  // ---------------------------------------------------------------- runs

  datatype Event =
    | NewMarket
    | PlaceOrder(market: nat, price: int, count: int, buyYes: bool, ts: nat, displayed: int)
    | CancelOrder(cid: nat, ts: nat)
    | Tape(p: Print)
    | Settlement(market: nat, yesWins: bool, ts: nat)
    | Clock(now: nat)

  // Callers only name markets they have registered; anything else is not an event.
  predicate Named(ev: Event, markets: nat) {
    match ev
    case PlaceOrder(m, _, _, _, _, _) => m < markets
    case Tape(p) => p.market < markets
    case Settlement(m, _, _) => m < markets
    case _ => true
  }

  function Step(e: Engine, ev: Event): (e': Engine)
    requires Indexed(e)
    ensures Indexed(e') && e'.ineligible >= e.ineligible && |e'.reg.slots| == |e.reg.slots|
  {
    if !Named(ev, |e.books|) then e else
    match ev
    case NewMarket => e.(books := e.books + [NEW_BOOK])
    case PlaceOrder(m, price, count, buyYes, ts, displayed) => Place(e, m, price, count, buyYes, ts, displayed)
    case CancelOrder(cid, ts) => Cancel(e, cid, ts)
    case Tape(p) => Trade(e, p)
    case Settlement(m, yesWins, ts) => Settle(e, m, yesWins, ts)
    case Clock(now) => Advance(e, now)
  }

  function EmptyGauge(): (g: Gauge)
    ensures g.Sized()
  {
    Gauge(seq(MARKET_SLOTS, _ => 0), seq(MARKET_SLOTS, _ => 0), 0)
  }

  // A new engine with a table of n slots (8192 in the source); the free list is filled
  // so that slot 0 is handed out first.
  function Fresh(cfg: Config, n: nat): (e: Engine)
    ensures Indexed(e)
  {
    Engine(cfg, Registry(seq(n, _ => EMPTY), seq(n, i requires 0 <= i < n => n - 1 - i), map[], EmptyGauge(), 0),
           [], [], 0, 0, 0, [], [], map[], [], [])
  }

  function Run(cfg: Config, n: nat, evs: seq<Event>): (e: Engine)
    ensures Indexed(e)
    decreases |evs|
  {
    if evs == [] then Fresh(cfg, n) else Step(Run(cfg, n, evs[..|evs| - 1]), evs[|evs| - 1])
  }

  // The same events on bare life cycles. accepted says whether a placement found a slot.
  datatype Lives = Lives(j: Ideal, cidSeq: nat, markets: nat)

  function LivesStep(cfg: Config, s: Lives, ev: Event, accepted: bool): Lives {
    if !Named(ev, s.markets) then s else
    match ev
    case NewMarket => s.(markets := s.markets + 1)
    case PlaceOrder(m, price, count, buyYes, ts, displayed) =>
      var c := s.cidSeq + 1;
      s.(cidSeq := c, j := if accepted then s.j[c := NewLife(cfg, c, m, price, count, buyYes, ts, displayed)] else s.j)
    case CancelOrder(cid, ts) => if cid in s.j then s.(j := s.j[cid := CancelAsked(cfg, s.j[cid], ts)]) else s
    case Tape(p) => s.(j := HitAll(cfg.track, AdvanceAll(cfg.track, s.j, p.ts), p))
    case Settlement(m, _, ts) => s.(j := UnlistAll(SettleAll(AdvanceAll(cfg.track, s.j, ts), m), m))
    case Clock(now) => s.(j := AdvanceAll(cfg.track, s.j, now))
  }

  // The life cycles under these events, given which placements found a slot.
  function LivesOn(cfg: Config, evs: seq<Event>, ok: seq<bool>): Lives
    requires |ok| == |evs|
    decreases |evs|
  {
    if evs == [] then Lives(map[], 0, 0)
    else
      var k := |evs| - 1;
      LivesStep(cfg, LivesOn(cfg, evs[..k], ok[..k]), evs[k], ok[k])
  }

  // At which events the engine had a slot left.
  function Room(cfg: Config, n: nat, evs: seq<Event>): (ok: seq<bool>)
    ensures |ok| == |evs|
    decreases |evs|
  {
    if evs == [] then []
    else
      var k := |evs| - 1;
      Room(cfg, n, evs[..k]) + [|Run(cfg, n, evs[..k]).reg.free| > 0]
  }

  function LivesOf(cfg: Config, n: nat, evs: seq<Event>): Lives { LivesOn(cfg, evs, Room(cfg, n, evs)) }

  ghost predicate Agree(e: Engine, s: Lives) {
    Refines(e, s.j) && e.scratch == [] && e.cidSeq == s.cidSeq && |e.books| == s.markets
  }

  lemma {:induction false} ZeroSums(slots: seq<OrderRec>, q: Quantity)
    requires (forall i | 0 <= i < |slots| :: slots[i] == EMPTY) && q != InState(Free)
    ensures Sum(slots, q) == 0
  {
    if slots != [] { ZeroSums(slots[1..], q); }
  }

  lemma FreshAgrees(cfg: Config, n: nat)
    ensures Agree(Fresh(cfg, n), Lives(map[], 0, 0))
  {
    var e := Fresh(cfg, n);
    FreshStruct(cfg, n);
    assert e.log + e.scratch == [];
    assert Match(e, map[]);
    assert Queued(e);
  }

  lemma FreshStruct(cfg: Config, n: nat)
    ensures Struct(Fresh(cfg, n))
  {
    FreshGauge(n);
    FreshLists(cfg, n);
    ZeroSums(Fresh(cfg, n).reg.slots, InState(Expired));
  }

  lemma FreshLists(cfg: Config, n: nat)
    ensures var e := Fresh(cfg, n);
      && Holds(e.reg.free, e.reg.slots, FreeSlots) && Holds(Idxs(e.pending), e.reg.slots, PendingSlots)
      && Holds(e.open, e.reg.slots, LiveSlots)
  {
    var e := Fresh(cfg, n);
    forall i | 0 <= i < n ensures i in e.reg.free { assert e.reg.free[n - 1 - i] == i; }
  }

  lemma FreshGauge(n: nat)
    ensures GaugeExact(seq(n, _ => EMPTY), EmptyGauge())
  {
    var s: seq<OrderRec> := seq(n, _ => EMPTY);
    ZeroSums(s, TotalRisk);
    forall k | 0 <= k < MARKET_SLOTS ensures Sum(s, RiskAt(k)) == 0 && Sum(s, ContractsAt(k)) == 0 {
      ZeroSums(s, RiskAt(k));
      ZeroSums(s, ContractsAt(k));
    }
  }

  lemma NewMarketAgrees(e: Engine, s: Lives)
    requires Agree(e, s)
    ensures Agree(e.(books := e.books + [NEW_BOOK]), s.(markets := s.markets + 1))
  {
    var e' := e.(books := e.books + [NEW_BOOK]);
    MarkedStruct(e, e'.books);
    RegisterExact(e.books, e.log);
    assert Match(e', s.j) && Queued(e');
  }

  lemma DropStruct(e: Engine)
    requires Struct(e)
    ensures Struct(e.(cidSeq := e.cidSeq + 1, droppedFull := e.droppedFull + 1))
  {
  }

  lemma DropAgrees(e: Engine, s: Lives)
    requires Agree(e, s)
    ensures Agree(e.(cidSeq := e.cidSeq + 1, droppedFull := e.droppedFull + 1), s.(cidSeq := s.cidSeq + 1))
  {
    DropStruct(e);
    var e' := e.(cidSeq := e.cidSeq + 1, droppedFull := e.droppedFull + 1);
    assert Match(e', s.j) && Queued(e');
  }

  // An accepted placement, e' and j' being what it leads to.
  lemma PlaceAgrees(e: Engine, j: Ideal, ev: Event, e': Engine, c: nat, j': Ideal)
    requires Refines(e, j) && ev.PlaceOrder? && ev.market < |e.books| && |e.reg.free| > 0 && c == e.cidSeq + 1
    requires e' == PlaceAccepted(e, ev.market, ev.price, ev.count, ev.buyYes, ev.ts, ev.displayed)
    requires j' == j[c := NewLife(e.cfg, c, ev.market, ev.price, ev.count, ev.buyYes, ev.ts, ev.displayed)]
    ensures Refines(e', j') && e'.scratch == e.scratch && e'.cidSeq == c && e'.books == e.books
  {
    PlaceRefines(e, ev.market, ev.price, ev.count, ev.buyYes, ev.ts, ev.displayed, j);
    PlaceFrame(e, ev.market, ev.price, ev.count, ev.buyYes, ev.ts, ev.displayed);
  }

  lemma PlaceFrame(e: Engine, m: nat, price: int, count: int, buyYes: bool, ts: nat, displayed: int)
    requires Indexed(e) && m < |e.books| && |e.reg.free| > 0
    ensures var e' := PlaceAccepted(e, m, price, count, buyYes, ts, displayed);
      e'.scratch == e.scratch && e'.cidSeq == e.cidSeq + 1 && e'.books == e.books
  {
  }

  lemma Agrees(e: Engine, s: Lives, j: Ideal)
    requires Refines(e, j) && e.scratch == [] && e.cidSeq == s.cidSeq && |e.books| == s.markets && s.j == j
    ensures Agree(e, s)
  {
  }

  // An operation that keeps the ids and the markets.
  lemma SameScale(e: Engine, s: Lives, e': Engine, j': Ideal)
    requires Agree(e, s) && Refines(e', j') && e'.scratch == [] && e'.cidSeq == e.cidSeq && |e'.books| == |e.books|
    ensures Agree(e', s.(j := j'))
  {
  }

  ghost predicate StepOk(e: Engine, s: Lives, ev: Event)
    requires Indexed(e)
  {
    Agree(Step(e, ev), LivesStep(e.cfg, s, ev, |e.reg.free| > 0)) && Step(e, ev).cfg == e.cfg
  }

  lemma AcceptIs(e: Engine, s: Lives, ev: Event)
    requires Indexed(e) && |e.books| == s.markets && ev.PlaceOrder? && ev.market < s.markets && |e.reg.free| > 0
    ensures var e', s' := Step(e, ev), LivesStep(e.cfg, s, ev, true);
      && e' == PlaceAccepted(e, ev.market, ev.price, ev.count, ev.buyYes, ev.ts, ev.displayed) && e'.cfg == e.cfg
      && s'.cidSeq == s.cidSeq + 1 && s'.markets == s.markets
      && s'.j == s.j[s.cidSeq + 1 := NewLife(e.cfg, s.cidSeq + 1, ev.market, ev.price, ev.count, ev.buyYes, ev.ts, ev.displayed)]
  {
  }

  lemma AcceptStep(e: Engine, s: Lives, ev: Event)
    requires Agree(e, s) && ev.PlaceOrder? && Named(ev, s.markets) && |e.reg.free| > 0
    ensures StepOk(e, s, ev)
  {
    var e', s' := Step(e, ev), LivesStep(e.cfg, s, ev, true);
    AcceptIs(e, s, ev);
    PlaceAgrees(e, s.j, ev, e', s'.cidSeq, s'.j);
    Agrees(e', s', s'.j);
  }

  lemma DropIs(e: Engine, s: Lives, ev: Event)
    requires Indexed(e) && ev.PlaceOrder? && Named(ev, s.markets) && |e.books| == s.markets && |e.reg.free| == 0
    ensures Step(e, ev) == e.(cidSeq := e.cidSeq + 1, droppedFull := e.droppedFull + 1)
    ensures LivesStep(e.cfg, s, ev, false) == s.(cidSeq := s.cidSeq + 1)
  {
  }

  lemma DropStep(e: Engine, s: Lives, ev: Event)
    requires Agree(e, s) && ev.PlaceOrder? && Named(ev, s.markets) && |e.reg.free| == 0
    ensures StepOk(e, s, ev)
  {
    DropIs(e, s, ev);
    DropAgrees(e, s);
  }

  lemma CancelIs(e: Engine, s: Lives, ev: Event)
    requires Indexed(e) && ev.CancelOrder?
    ensures var e' := Cancel(e, ev.cid, ev.ts);
      Step(e, ev) == e' && e'.books == e.books && e'.scratch == e.scratch && e'.cfg == e.cfg && e'.cidSeq == e.cidSeq
    ensures LivesStep(e.cfg, s, ev, |e.reg.free| > 0)
         == if ev.cid in s.j then s.(j := s.j[ev.cid := CancelAsked(e.cfg, s.j[ev.cid], ev.ts)]) else s
  {
  }

  lemma CancelStep(e: Engine, s: Lives, ev: Event)
    requires Agree(e, s) && ev.CancelOrder?
    ensures StepOk(e, s, ev)
  {
    CancelIs(e, s, ev);
    CancelRefines(e, ev.cid, ev.ts, s.j);
    if ev.cid in s.j { SameScale(e, s, Step(e, ev), s.j[ev.cid := CancelAsked(e.cfg, s.j[ev.cid], ev.ts)]); }
  }

  lemma TapeStep(e: Engine, s: Lives, ev: Event)
    requires Agree(e, s) && ev.Tape? && Named(ev, s.markets)
    ensures StepOk(e, s, ev)
  {
    TradeRefines(e, ev.p, s.j);
    assert Step(e, ev) == Trade(e, ev.p);
    SameScale(e, s, Trade(e, ev.p), HitAll(e.cfg.track, AdvanceAll(e.cfg.track, s.j, ev.p.ts), ev.p));
  }

  lemma SettlementStep(e: Engine, s: Lives, ev: Event)
    requires Agree(e, s) && ev.Settlement? && Named(ev, s.markets)
    ensures StepOk(e, s, ev)
  {
    SettleRefines(e, ev.market, ev.yesWins, ev.ts, s.j);
    assert Step(e, ev) == Settle(e, ev.market, ev.yesWins, ev.ts);
    SameScale(e, s, Settle(e, ev.market, ev.yesWins, ev.ts),
              UnlistAll(SettleAll(AdvanceAll(e.cfg.track, s.j, ev.ts), ev.market), ev.market));
  }

  lemma ClockStep(e: Engine, s: Lives, ev: Event)
    requires Agree(e, s) && ev.Clock?
    ensures StepOk(e, s, ev)
  {
    AdvanceRefines(e, ev.now, s.j);
    assert Step(e, ev) == Advance(e, ev.now);
    SameScale(e, s, Advance(e, ev.now), AdvanceAll(e.cfg.track, s.j, ev.now));
  }

  lemma StepAgrees(e: Engine, s: Lives, ev: Event)
    requires Agree(e, s)
    ensures StepOk(e, s, ev)
  {
    if Named(ev, s.markets) {
      match ev
      case NewMarket => NewMarketAgrees(e, s);
      case PlaceOrder(_, _, _, _, _, _) => if |e.reg.free| > 0 { AcceptStep(e, s, ev); } else { DropStep(e, s, ev); }
      case CancelOrder(_, _) => CancelStep(e, s, ev);
      case Tape(_) => TapeStep(e, s, ev);
      case Settlement(_, _, _) => SettlementStep(e, s, ev);
      case Clock(_) => ClockStep(e, s, ev);
    }
  }

  /** After every run the engine's tables agree with each other and with the orders'
      life cycles. */
  lemma {:induction false} RunAgrees(cfg: Config, n: nat, evs: seq<Event>)
    ensures Agree(Run(cfg, n, evs), LivesOf(cfg, n, evs)) && Run(cfg, n, evs).cfg == cfg
    decreases |evs|
  {
    if evs == [] {
      FreshAgrees(cfg, n);
    } else {
      var k := |evs| - 1;
      RunAgrees(cfg, n, evs[..k]);
      assert Room(cfg, n, evs)[..k] == Room(cfg, n, evs[..k]);
      StepAgrees(Run(cfg, n, evs[..k]), LivesOf(cfg, n, evs[..k]), evs[k]);
    }
  }
}
